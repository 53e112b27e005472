/**
 * The item list page (frontend/src/pages/ViewItems.jsx): its state and the
 * list it displays, derived from the fetched items by three steps that always
 * run in this order: keep the items of the chosen type, keep the items whose
 * name or description contains the search text (ignoring ASCII case), and
 * sort by one of four keys. The sort is `Array.prototype.sort`, which is
 * stable, run in place on a copy; an unknown sort key leaves the order alone.
 */
module ViewItems {
  import opened Wrappers
  import opened Text
  import opened ItemModel

  /** The type filter buttons, besides "All". */
  const ITEM_TYPES: seq<string> := ["Shirt", "Pant", "Shoes", "Sports Gear", "Other"]

  /** The page's filter buttons are exactly the types the schema accepts. */
  lemma FilterTypesMatchSchema(t: string)
    ensures t in ITEM_TYPES <==> IsItemType(t)
  {
    ItemTypesEnumerated(t);
  }

  /** The filter value that keeps every type. */
  const ALL: string := "All"

  datatype SortKey = Newest | Oldest | NameAsc | NameDesc

  /** The sort menu: each option's label and value. */
  const SORT_OPTIONS: seq<(string, string)> := [
    ("Newest First", "newest"), ("Oldest First", "oldest"),
    ("Name (A-Z)", "nameAsc"), ("Name (Z-A)", "nameDesc")]

  /** The `switch` on the sort option; a value no `case` names has no sort. */
  function ParseSortOption(option: string): (k: Option<SortKey>)
    ensures k.Some? <==> option == "newest" || option == "oldest" || option == "nameAsc" || option == "nameDesc"
    ensures option == "newest" ==> k == Some(Newest)
    ensures option == "oldest" ==> k == Some(Oldest)
    ensures option == "nameAsc" ==> k == Some(NameAsc)
    ensures option == "nameDesc" ==> k == Some(NameDesc)
  {
    if option == "newest" then Some(Newest)
    else if option == "oldest" then Some(Oldest)
    else if option == "nameAsc" then Some(NameAsc)
    else if option == "nameDesc" then Some(NameDesc)
    else None
  }

  /** Exactly the values the sort menu offers select a sort. */
  lemma SortMenuParses(option: string)
    ensures ParseSortOption(option).Some? <==>
              exists i :: 0 <= i < |SORT_OPTIONS| && SORT_OPTIONS[i].1 == option
  {
    if ParseSortOption(option).Some? {
      var i := if option == "newest" then 0 else if option == "oldest" then 1
               else if option == "nameAsc" then 2 else 3;
      assert SORT_OPTIONS[i].1 == option;
    }
  }

  // ----- Orderings -----

  /** Three-way comparison of names, character code by character code; it stands in for
      `localeCompare`. */
  function NameCompare(a: string, b: string): (c: int)
    ensures -1 <= c <= 1
    ensures c == 0 <==> a == b
  {
    if a == [] && b == [] then 0
    else if a == [] then -1
    else if b == [] then 1
    else if a[0] < b[0] then -1
    else if a[0] > b[0] then 1
    else
      var c := NameCompare(a[1..], b[1..]);
      assert c == 0 ==> a == [a[0]] + a[1..] && b == [b[0]] + b[1..];
      c
  }

  lemma {:induction false} NameCompareAntisymmetric(a: string, b: string)
    ensures NameCompare(a, b) == -NameCompare(b, a)
  {
    if a != [] && b != [] && a[0] == b[0] {
      NameCompareAntisymmetric(a[1..], b[1..]);
    }
  }

  lemma {:induction false} NameCompareTransitive(a: string, b: string, c: string)
    requires NameCompare(a, b) <= 0 && NameCompare(b, c) <= 0
    ensures NameCompare(a, c) <= 0
  {
    if a != [] && b != [] && c != [] && a[0] == b[0] == c[0] {
      NameCompareTransitive(a[1..], b[1..], c[1..]);
    }
  }

  /** The comparator each sort key passes to `sort`: negative puts `x` first. */
  function Compare(key: SortKey, x: Item, y: Item): int {
    match key
    case Newest => y.createdAt - x.createdAt
    case Oldest => x.createdAt - y.createdAt
    case NameAsc => NameCompare(x.itemName, y.itemName)
    case NameDesc => NameCompare(y.itemName, x.itemName)
  }

  /** `x` may come before `y`. */
  predicate Le(key: SortKey, x: Item, y: Item) {
    Compare(key, x, y) <= 0
  }

  /** Every comparator is consistent: swapping the arguments negates the result. */
  lemma CompareAntisymmetric(key: SortKey, x: Item, y: Item)
    ensures Compare(key, x, y) == -Compare(key, y, x)
  {
    match key
    case NameAsc => NameCompareAntisymmetric(x.itemName, y.itemName);
    case NameDesc => NameCompareAntisymmetric(x.itemName, y.itemName);
    case _ =>
  }

  lemma LeTransitive(key: SortKey, x: Item, y: Item, z: Item)
    requires Le(key, x, y) && Le(key, y, z)
    ensures Le(key, x, z)
  {
    match key
    case NameAsc => NameCompareTransitive(x.itemName, y.itemName, z.itemName);
    case NameDesc => NameCompareTransitive(z.itemName, y.itemName, x.itemName);
    case _ =>
  }

  predicate SortedBy(key: SortKey, s: seq<Item>) {
    forall i, j :: 0 <= i < j < |s| ==> Le(key, s[i], s[j])
  }

  // ----- Stable insertion sort, the reference for `sort` -----

  /** Inserts `x` after the last element of `s` that may precede it, scanning from the end. */
  function InsertLast(key: SortKey, s: seq<Item>, x: Item): (r: seq<Item>)
    ensures |r| == |s| + 1
  {
    if s == [] then [x]
    else if Compare(key, s[|s| - 1], x) > 0 then
      var init := s[..|s| - 1];
      assert s == init + [s[|s| - 1]];
      InsertLast(key, init, x) + [s[|s| - 1]]
    else s + [x]
  }

  /** Sorts `s` by inserting each element, in order, into the sorted prefix before it. */
  function SortBy(key: SortKey, s: seq<Item>): (r: seq<Item>)
    ensures |r| == |s|
  {
    if s == [] then []
    else
      assert s == s[..|s| - 1] + [s[|s| - 1]];
      InsertLast(key, SortBy(key, s[..|s| - 1]), s[|s| - 1])
  }

  /** Insertion adds exactly the inserted element. */
  lemma {:induction false} InsertLastPermutes(key: SortKey, s: seq<Item>, x: Item)
    ensures multiset(InsertLast(key, s, x)) == multiset(s) + multiset{x}
  {
    if s != [] && Compare(key, s[|s| - 1], x) > 0 {
      var init := s[..|s| - 1];
      assert s == init + [s[|s| - 1]];
      InsertLastPermutes(key, init, x);
    }
  }

  /** The reference sort is a permutation of its input. */
  lemma {:induction false} SortByPermutes(key: SortKey, s: seq<Item>)
    ensures multiset(SortBy(key, s)) == multiset(s)
  {
    if s != [] {
      var init := s[..|s| - 1];
      assert s == init + [s[|s| - 1]];
      SortByPermutes(key, init);
      InsertLastPermutes(key, SortBy(key, init), s[|s| - 1]);
    }
  }

  /** Appending an element that every element may precede keeps a list sorted. */
  lemma SortedAppend(key: SortKey, t: seq<Item>, y: Item)
    requires SortedBy(key, t)
    requires forall k :: 0 <= k < |t| ==> Le(key, t[k], y)
    ensures SortedBy(key, t + [y])
  {
    var r := t + [y];
    forall i, j | 0 <= i < j < |r|
      ensures Le(key, r[i], r[j])
    {
      assert r[i] == t[i];
      if j < |t| {
        assert r[j] == t[j];
      }
    }
  }

  /** An upper bound of a list and of `x` bounds every element of the insertion. */
  lemma InsertLastBounded(key: SortKey, s: seq<Item>, x: Item, y: Item)
    requires forall k :: 0 <= k < |s| ==> Le(key, s[k], y)
    requires Le(key, x, y)
    ensures forall k :: 0 <= k < |InsertLast(key, s, x)| ==> Le(key, InsertLast(key, s, x)[k], y)
  {
    var t := InsertLast(key, s, x);
    InsertLastPermutes(key, s, x);
    forall k | 0 <= k < |t|
      ensures Le(key, t[k], y)
    {
      var e := t[k];
      assert e in multiset(t);
      if e != x {
        assert e in multiset(s);
        var m :| 0 <= m < |s| && s[m] == e;
      }
    }
  }

  lemma {:induction false} InsertLastSorted(key: SortKey, s: seq<Item>, x: Item)
    requires SortedBy(key, s)
    ensures SortedBy(key, InsertLast(key, s, x))
  {
    if s == [] {
    } else if Compare(key, s[|s| - 1], x) > 0 {
      var init, last := s[..|s| - 1], s[|s| - 1];
      InsertLastSorted(key, init, x);
      CompareAntisymmetric(key, last, x);
      forall k | 0 <= k < |init|
        ensures Le(key, init[k], last)
      {
        assert init[k] == s[k];
      }
      InsertLastBounded(key, init, x, last);
      SortedAppend(key, InsertLast(key, init, x), last);
    } else {
      var last := s[|s| - 1];
      forall k | 0 <= k < |s|
        ensures Le(key, s[k], x)
      {
        if k < |s| - 1 {
          LeTransitive(key, s[k], last, x);
        }
      }
      SortedAppend(key, s, x);
    }
  }

  /** The reference sort orders its output by the key. */
  lemma {:induction false} SortBySorted(key: SortKey, s: seq<Item>)
    ensures SortedBy(key, SortBy(key, s))
  {
    if s != [] {
      SortBySorted(key, s[..|s| - 1]);
      InsertLastSorted(key, SortBy(key, s[..|s| - 1]), s[|s| - 1]);
    }
  }

  /** The elements of `s` that tie with `p` under the key, in their order in `s`. */
  function Ties(key: SortKey, s: seq<Item>, p: Item): (r: seq<Item>)
    ensures |r| <= |s|
  {
    if s == [] then []
    else Ties(key, s[..|s| - 1], p) + (if Compare(key, s[|s| - 1], p) == 0 then [s[|s| - 1]] else [])
  }

  /** Tied items compare alike with everything: the same sign, from antisymmetry and
      transitivity alone. */
  lemma CompareTie(key: SortKey, x: Item, p: Item, y: Item)
    requires Compare(key, x, p) == 0
    ensures Compare(key, y, x) <= 0 <==> Compare(key, y, p) <= 0
    ensures Compare(key, y, x) == 0 <==> Compare(key, y, p) == 0
  {
    CompareAntisymmetric(key, x, p);
    CompareAntisymmetric(key, y, x);
    CompareAntisymmetric(key, y, p);
    if Le(key, y, x) { LeTransitive(key, y, x, p); }
    if Le(key, y, p) { LeTransitive(key, y, p, x); }
    if Le(key, x, y) { LeTransitive(key, p, x, y); }
    if Le(key, p, y) { LeTransitive(key, x, p, y); }
  }

  /** Appending one element extends the ties by that element when it ties. */
  lemma TiesSnoc(key: SortKey, t: seq<Item>, e: Item, p: Item)
    ensures Ties(key, t + [e], p) == Ties(key, t, p) + (if Compare(key, e, p) == 0 then [e] else [])
  {
    assert (t + [e])[..|t|] == t;
  }

  /** Two pieces, one of them empty, can be appended in either order. */
  lemma EmptySwap<T>(a: seq<T>, b: seq<T>, c: seq<T>)
    requires b == [] || c == []
    ensures a + b + c == a + c + b
  {
  }

  /** Insertion puts a tied element after every element it ties with. */
  lemma {:induction false} InsertLastTies(key: SortKey, s: seq<Item>, x: Item, p: Item)
    ensures Ties(key, InsertLast(key, s, x), p)
            == Ties(key, s, p) + (if Compare(key, x, p) == 0 then [x] else [])
  {
    if s == [] {
      TiesSnoc(key, [], x, p);
    } else if Compare(key, s[|s| - 1], x) > 0 {
      var init, last := s[..|s| - 1], s[|s| - 1];
      var tx := if Compare(key, x, p) == 0 then [x] else [];
      var tl := if Compare(key, last, p) == 0 then [last] else [];
      var t := InsertLast(key, init, x);
      assert InsertLast(key, s, x) == t + [last] by { InsertLastPast(key, s, x); }
      assert Ties(key, t, p) == Ties(key, init, p) + tx by { InsertLastTies(key, init, x, p); }
      assert Ties(key, t + [last], p) == Ties(key, t, p) + tl by { TiesSnoc(key, t, last, p); }
      assert tx == [] || tl == [] by {
        if Compare(key, x, p) == 0 {
          CompareTie(key, x, p, last);
        }
      }
      assert Ties(key, s, p) == Ties(key, init, p) + tl;
      EmptySwap(Ties(key, init, p), tx, tl);
    } else {
      TiesSnoc(key, s, x, p);
    }
  }

  /** The reference sort is stable: the items that tie with any `p` come out in their
      input order. */
  lemma {:induction false} SortByStable(key: SortKey, s: seq<Item>, p: Item)
    ensures Ties(key, SortBy(key, s), p) == Ties(key, s, p)
  {
    if s != [] {
      SortByStable(key, s[..|s| - 1], p);
      InsertLastTies(key, SortBy(key, s[..|s| - 1]), s[|s| - 1], p);
    }
  }

  /** Where the scan from the end stops: `x` goes after the last element that may precede
      it, and before the run of elements that must follow it. */
  lemma {:induction false} InsertLastAt(key: SortKey, sorted: seq<Item>, j: int, x: Item)
    requires 0 <= j <= |sorted|
    requires j == 0 || Compare(key, sorted[j - 1], x) <= 0
    requires forall k :: j <= k < |sorted| ==> Compare(key, sorted[k], x) > 0
    ensures InsertLast(key, sorted, x) == sorted[..j] + [x] + sorted[j..]
  {
    if j == |sorted| {
      assert sorted[..j] == sorted && sorted[j..] == [];
    } else {
      var init, last := sorted[..|sorted| - 1], sorted[|sorted| - 1];
      InsertLastPast(key, sorted, x);
      forall k | j <= k < |init|
        ensures Compare(key, init[k], x) > 0
      {
        assert init[k] == sorted[k];
      }
      InsertLastAt(key, init, j, x);
      DropLastSplit(sorted, j);
    }
  }

  /** Where the last element must follow `x`, insertion goes on in the rest of the list. */
  lemma InsertLastPast(key: SortKey, s: seq<Item>, x: Item)
    requires s != [] && Compare(key, s[|s| - 1], x) > 0
    ensures InsertLast(key, s, x) == InsertLast(key, s[..|s| - 1], x) + [s[|s| - 1]]
  {
  }

  /** Cutting a list at `j` before or after dropping its last element. */
  lemma DropLastSplit<T>(s: seq<T>, j: int)
    requires 0 <= j < |s|
    ensures s[..|s| - 1][..j] == s[..j]
    ensures s[..|s| - 1][j..] + [s[|s| - 1]] == s[j..]
    ensures j == 0 || s[..|s| - 1][j - 1] == s[j - 1]
  {
  }

  /** A list that agrees with `sorted` before `j`, holds `x` at `j`, and holds the rest of
      `sorted` shifted one place right is `x` spliced into `sorted` at `j`. */
  lemma ShiftedIs<T>(sorted: seq<T>, j: int, x: T, r: seq<T>)
    requires 0 <= j <= |sorted| && |r| == |sorted| + 1
    requires forall k :: 0 <= k < j ==> r[k] == sorted[k]
    requires r[j] == x
    requires forall k :: j < k < |r| ==> r[k] == sorted[k - 1]
    ensures r == sorted[..j] + [x] + sorted[j..]
  {
  }

  /** The reference sort of one more element inserts it into the sort of the rest. */
  lemma SortByStep(key: SortKey, s: seq<Item>, i: int)
    requires 0 <= i < |s|
    ensures SortBy(key, s[..i + 1]) == InsertLast(key, SortBy(key, s[..i]), s[i])
  {
    assert s[..i + 1][..i] == s[..i];
  }

  /** Scans the sorted prefix `a[..i]` from its end for the place of `x`: the index after
      the last element that may precede `x`. */
  method InsertionPoint(a: array<Item>, i: int, x: Item, key: SortKey) returns (j: int)
    requires 0 <= i <= a.Length
    ensures 0 <= j <= i
    ensures j == 0 || Compare(key, a[j - 1], x) <= 0
    ensures forall k :: j <= k < i ==> Compare(key, a[k], x) > 0
  {
    j := i;
    while j > 0 && Compare(key, a[j - 1], x) > 0
      invariant 0 <= j <= i
      invariant forall k :: j <= k < i ==> Compare(key, a[k], x) > 0
    {
      j := j - 1;
    }
  }

  /** Moves `a[j..i]` one place right, onto `a[j + 1..i + 1]`; nothing else changes. */
  method ShiftRight(a: array<Item>, j: int, i: int)
    requires 0 <= j <= i < a.Length
    modifies a
    ensures forall k :: j < k <= i ==> a[k] == old(a[k - 1])
    ensures forall k :: 0 <= k < a.Length && !(j < k <= i) ==> a[k] == old(a[k])
  {
    var m := i;
    while m > j
      invariant j <= m <= i
      invariant forall k :: m < k <= i ==> a[k] == old(a[k - 1])
      invariant forall k :: 0 <= k < a.Length && !(m < k <= i) ==> a[k] == old(a[k])
    {
      a[m] := a[m - 1];
      m := m - 1;
    }
  }

  /** Moves `a[i]` left past the elements of the sorted prefix `a[..i]` that must follow it. */
  method InsertIntoPrefix(a: array<Item>, i: int, key: SortKey)
    requires 0 <= i < a.Length
    modifies a
    ensures a[..i + 1] == InsertLast(key, old(a[..i]), old(a[i]))
    ensures forall k :: i < k < a.Length ==> a[k] == old(a[k])
  {
    var x := a[i];
    ghost var sorted := a[..i];
    var j := InsertionPoint(a, i, x, key);
    InsertLastAt(key, sorted, j, x);
    ShiftRight(a, j, i);
    a[j] := x;
    ShiftedIs(sorted, j, x, a[..i + 1]);
  }

  /** `a.sort(comparator)` in place: an insertion sort that shifts each element left past
      the elements that must follow it, which leaves equal elements in their order. */
  method SortInPlace(a: array<Item>, key: SortKey)
    modifies a
    ensures a[..] == SortBy(key, old(a[..]))
  {
    ghost var s := a[..];
    var i := 0;
    while i < a.Length
      invariant 0 <= i <= a.Length
      invariant a[..i] == SortBy(key, s[..i])
      invariant forall k :: i <= k < a.Length ==> a[k] == s[k]
    {
      SortByStep(key, s, i);
      InsertIntoPrefix(a, i, key);
      i := i + 1;
    }
    assert a[..] == a[..a.Length];
    assert s == s[..a.Length];
  }

  // ----- Filtering -----

  /** `items.filter(item => item.itemType === filter)`. */
  function FilterByType(items: seq<Item>, filter: string): (r: seq<Item>)
    ensures |r| <= |items|
  {
    if items == [] then []
    else
      assert items == [items[0]] + items[1..];
      (if items[0].itemType == filter then [items[0]] else []) + FilterByType(items[1..], filter)
  }

  /** The search test: the lower-cased name or description contains the lower-cased query. */
  predicate MatchesQuery(item: Item, query: string) {
    Contains(Lower(item.itemName), Lower(query)) || Contains(Lower(item.description), Lower(query))
  }

  /** `items.filter(item => MatchesQuery(item, query))`. */
  function FilterBySearch(items: seq<Item>, query: string): (r: seq<Item>)
    ensures |r| <= |items|
  {
    if items == [] then []
    else
      assert items == [items[0]] + items[1..];
      (if MatchesQuery(items[0], query) then [items[0]] else []) + FilterBySearch(items[1..], query)
  }

  /** Filtering by type works piece by piece: filtering a concatenation concatenates the
      filtered parts. With `FilterByTypeOne` this fixes the result: the kept items appear
      in their input order. */
  lemma {:induction false} FilterByTypeConcat(a: seq<Item>, b: seq<Item>, filter: string)
    ensures FilterByType(a + b, filter) == FilterByType(a, filter) + FilterByType(b, filter)
  {
    if a == [] {
      assert a + b == b;
    } else {
      var h := if a[0].itemType == filter then [a[0]] else [];
      assert FilterByType(a + b, filter) == h + FilterByType(a[1..] + b, filter) by {
        assert (a + b)[0] == a[0];
        assert (a + b)[1..] == a[1..] + b;
      }
      assert FilterByType(a[1..] + b, filter) == FilterByType(a[1..], filter) + FilterByType(b, filter) by {
        FilterByTypeConcat(a[1..], b, filter);
      }
      assert FilterByType(a, filter) == h + FilterByType(a[1..], filter);
    }
  }

  /** A lone item is kept exactly when it passes the test. */
  lemma FilterByTypeOne(x: Item, filter: string)
    ensures FilterByType([x], filter) == if x.itemType == filter then [x] else []
  {
    assert [x][1..] == [];
  }

  /** Each item occurs in the type-filtered list as often as in the input when it has the
      type, and not at all otherwise. */
  lemma {:induction false} FilterByTypeCounts(items: seq<Item>, filter: string, x: Item)
    ensures multiset(FilterByType(items, filter))[x] == if x.itemType == filter then multiset(items)[x] else 0
  {
    if items != [] {
      var h := if items[0].itemType == filter then [items[0]] else [];
      assert FilterByType(items, filter) == h + FilterByType(items[1..], filter);
      FilterByTypeCounts(items[1..], filter, x);
      HeadSplit(items);
    }
  }
  /** The filter keeps exactly the items of the type, and only items of the input. */
  lemma FilterByTypeKeeps(items: seq<Item>, filter: string)
    ensures multiset(FilterByType(items, filter)) <= multiset(items)
    ensures forall x :: x in FilterByType(items, filter) <==> x in items && x.itemType == filter
  {
    forall x
      ensures multiset(FilterByType(items, filter))[x] == if x.itemType == filter then multiset(items)[x] else 0
    {
      FilterByTypeCounts(items, filter, x);
    }
  }


  /** The search filter works piece by piece, like the type filter. */
  lemma {:induction false} FilterBySearchConcat(a: seq<Item>, b: seq<Item>, query: string)
    ensures FilterBySearch(a + b, query) == FilterBySearch(a, query) + FilterBySearch(b, query)
  {
    if a == [] {
      assert a + b == b;
    } else {
      var h := if MatchesQuery(a[0], query) then [a[0]] else [];
      assert FilterBySearch(a + b, query) == h + FilterBySearch(a[1..] + b, query) by {
        assert (a + b)[0] == a[0];
        assert (a + b)[1..] == a[1..] + b;
      }
      assert FilterBySearch(a[1..] + b, query) == FilterBySearch(a[1..], query) + FilterBySearch(b, query) by {
        FilterBySearchConcat(a[1..], b, query);
      }
      assert FilterBySearch(a, query) == h + FilterBySearch(a[1..], query);
    }
  }

  /** A lone item is kept exactly when it passes the test. */
  lemma FilterBySearchOne(x: Item, query: string)
    ensures FilterBySearch([x], query) == if MatchesQuery(x, query) then [x] else []
  {
    assert [x][1..] == [];
  }

  /** Each matching item occurs in the search result as often as in the input. */
  lemma {:induction false} FilterBySearchCounts(items: seq<Item>, query: string, x: Item)
    ensures multiset(FilterBySearch(items, query))[x] == if MatchesQuery(x, query) then multiset(items)[x] else 0
  {
    if items != [] {
      var h := if MatchesQuery(items[0], query) then [items[0]] else [];
      assert FilterBySearch(items, query) == h + FilterBySearch(items[1..], query);
      FilterBySearchCounts(items[1..], query, x);
      HeadSplit(items);
    }
  }
  /** The filter keeps exactly the items that match the query, and only items of the input. */
  lemma FilterBySearchKeeps(items: seq<Item>, query: string)
    ensures multiset(FilterBySearch(items, query)) <= multiset(items)
    ensures forall x :: x in FilterBySearch(items, query) <==> x in items && MatchesQuery(x, query)
  {
    forall x
      ensures multiset(FilterBySearch(items, query))[x] == if MatchesQuery(x, query) then multiset(items)[x] else 0
    {
      FilterBySearchCounts(items, query, x);
    }
  }


  /** A non-empty list is its head followed by its tail, as a multiset too. */
  lemma HeadSplit<T>(s: seq<T>)
    requires s != []
    ensures multiset(s) == multiset([s[0]]) + multiset(s[1..])
  {
    assert s == [s[0]] + s[1..];
  }

  /** An empty query matches every item, so searching for it keeps the list as it is. */
  lemma {:induction false} EmptySearchKeepsAll(items: seq<Item>)
    ensures FilterBySearch(items, "") == items
  {
    if items != [] {
      ContainsEmpty(Lower(items[0].itemName));
      EmptySearchKeepsAll(items[1..]);
      assert items == [items[0]] + items[1..];
    }
  }

  /** The two filter steps, in the order the page applies them. */
  function Filtered(items: seq<Item>, filter: string, query: string): seq<Item> {
    var typed := if filter != ALL then FilterByType(items, filter) else items;
    if query != "" then FilterBySearch(typed, query) else typed
  }

  /** The two filter steps keep only fetched items, and keep an item exactly when it has the
      chosen type (any type under "All") and matches the search text (any item when the
      search is empty). */
  lemma FilteredKeeps(items: seq<Item>, filter: string, query: string)
    ensures multiset(Filtered(items, filter, query)) <= multiset(items)
    ensures forall x :: x in Filtered(items, filter, query) <==>
      && x in items
      && (filter == ALL || x.itemType == filter)
      && MatchesQuery(x, query)
  {
    var typed := if filter != ALL then FilterByType(items, filter) else items;
    if filter != ALL {
      FilterByTypeKeeps(items, filter);
    }
    if query != "" {
      FilterBySearchKeeps(typed, query);
    } else {
      forall x: Item
        ensures MatchesQuery(x, query)
      {
        ContainsEmpty(Lower(x.itemName));
      }
    }
  }

  /** The displayed list: the filtered items, sorted when the option names a key. */
  function Derived(items: seq<Item>, filter: string, sortOption: string, query: string): seq<Item> {
    var kept := Filtered(items, filter, query);
    match ParseSortOption(sortOption)
    case Some(key) => SortBy(key, kept)
    case None => kept
  }

  /** Sorting only reorders the filtered list. */
  lemma DerivedPermutesFiltered(items: seq<Item>, filter: string, sortOption: string, query: string)
    ensures multiset(Derived(items, filter, sortOption, query)) == multiset(Filtered(items, filter, query))
  {
    if ParseSortOption(sortOption).Some? {
      SortByPermutes(ParseSortOption(sortOption).value, Filtered(items, filter, query));
    }
  }

  /** The displayed list is a rearrangement of part of the fetched list. */
  lemma DerivedIsSubMultiset(items: seq<Item>, filter: string, sortOption: string, query: string)
    ensures var r := Derived(items, filter, sortOption, query);
      multiset(r) <= multiset(items) && |r| <= |items|
  {
    DerivedPermutesFiltered(items, filter, sortOption, query);
    FilteredKeeps(items, filter, query);
  }

  /** An item is displayed exactly when it is fetched, has the chosen type (any type under
      "All"), and matches the search text (any item when the search is empty). */
  lemma DerivedMembership(items: seq<Item>, filter: string, sortOption: string, query: string, x: Item)
    ensures x in Derived(items, filter, sortOption, query) <==>
      && x in items
      && (filter == ALL || x.itemType == filter)
      && MatchesQuery(x, query)
  {
    var kept := Filtered(items, filter, query);
    var r := Derived(items, filter, sortOption, query);
    DerivedPermutesFiltered(items, filter, sortOption, query);
    assert x in r <==> x in multiset(r);
    FilteredKeeps(items, filter, query);
  }

  /** Filtering by a type that no fetched item has shows nothing; it is not an error. */
  lemma AbsentTypeShowsNothing(items: seq<Item>, filter: string, sortOption: string, query: string)
    requires filter != ALL
    requires forall k :: 0 <= k < |items| ==> items[k].itemType != filter
    ensures Derived(items, filter, sortOption, query) == []
  {
    var r := Derived(items, filter, sortOption, query);
    if r != [] {
      DerivedMembership(items, filter, sortOption, query, r[0]);
    }
  }

  /** The sort option decides the order only: which items are shown, and how often,
      does not depend on it. */
  lemma SortOptionKeepsSelection(items: seq<Item>, filter: string, option1: string, option2: string, query: string)
    ensures multiset(Derived(items, filter, option1, query)) == multiset(Derived(items, filter, option2, query))
  {
    DerivedPermutesFiltered(items, filter, option1, query);
    DerivedPermutesFiltered(items, filter, option2, query);
  }

  /** Sorting by "newest" puts later creation times first; "oldest" the reverse. */
  lemma DerivedByCreationTime(items: seq<Item>, filter: string, query: string)
    ensures var r := Derived(items, filter, "newest", query);
      forall i, j :: 0 <= i < j < |r| ==> r[i].createdAt >= r[j].createdAt
    ensures var r := Derived(items, filter, "oldest", query);
      forall i, j :: 0 <= i < j < |r| ==> r[i].createdAt <= r[j].createdAt
  {
    SortBySorted(Newest, Filtered(items, filter, query));
    SortBySorted(Oldest, Filtered(items, filter, query));
  }

  /** Sorting by "nameAsc" orders names by the name comparison; "nameDesc" by its reverse. */
  lemma DerivedByName(items: seq<Item>, filter: string, query: string)
    ensures var r := Derived(items, filter, "nameAsc", query);
      forall i, j :: 0 <= i < j < |r| ==> NameCompare(r[i].itemName, r[j].itemName) <= 0
    ensures var r := Derived(items, filter, "nameDesc", query);
      forall i, j :: 0 <= i < j < |r| ==> NameCompare(r[i].itemName, r[j].itemName) >= 0
  {
    SortBySorted(NameAsc, Filtered(items, filter, query));
    var r := Derived(items, filter, "nameDesc", query);
    SortBySorted(NameDesc, Filtered(items, filter, query));
    forall i, j | 0 <= i < j < |r|
      ensures NameCompare(r[i].itemName, r[j].itemName) >= 0
    {
      NameCompareAntisymmetric(r[i].itemName, r[j].itemName);
    }
  }

  /** A sort option the `switch` does not name leaves the filtered order as it is. */
  lemma UnknownSortKeepsOrder(items: seq<Item>, filter: string, sortOption: string, query: string)
    requires sortOption !in ["newest", "oldest", "nameAsc", "nameDesc"]
    ensures Derived(items, filter, sortOption, query) == Filtered(items, filter, query)
  {
  }

  /** The page's state: the fetched list, the fetch status and the three controls. */
  class ViewItemsPage {
    var items: seq<Item>
    var loading: bool
    var error: Option<string>
    var filter: string
    var sortOption: string
    var searchQuery: string

    constructor ()
      ensures items == [] && loading && error == None
      ensures filter == ALL && sortOption == "newest" && searchQuery == ""
    {
      items, loading, error := [], true, None;
      filter, sortOption, searchQuery := ALL, "newest", "";
    }

    /** The list arrived. */
    method OnFetched(fetched: seq<Item>)
      modifies this
      ensures items == fetched && !loading && error == old(error)
      ensures filter == old(filter) && sortOption == old(sortOption) && searchQuery == old(searchQuery)
    {
      items, loading := fetched, false;
    }

    /** The fetch failed; `serverMessage` is the response body's message, if there was one. */
    method OnFetchFailed(serverMessage: Option<string>, errorMessage: string)
      modifies this
      ensures !loading && items == old(items)
      ensures error == Some("Failed to fetch items: " + (if serverMessage.Some? && serverMessage.value != "" then serverMessage.value else errorMessage))
      ensures filter == old(filter) && sortOption == old(sortOption) && searchQuery == old(searchQuery)
    {
      var reason := if serverMessage.Some? && serverMessage.value != "" then serverMessage.value else errorMessage;
      error, loading := Some("Failed to fetch items: " + reason), false;
    }

    method SetFilter(value: string)
      modifies this
      ensures filter == value
      ensures items == old(items) && sortOption == old(sortOption) && searchQuery == old(searchQuery)
      ensures loading == old(loading) && error == old(error)
    {
      filter := value;
    }

    method SetSortOption(value: string)
      modifies this
      ensures sortOption == value
      ensures items == old(items) && filter == old(filter) && searchQuery == old(searchQuery)
      ensures loading == old(loading) && error == old(error)
    {
      sortOption := value;
    }

    method SetSearchQuery(value: string)
      modifies this
      ensures searchQuery == value
      ensures items == old(items) && filter == old(filter) && sortOption == old(sortOption)
      ensures loading == old(loading) && error == old(error)
    {
      searchQuery := value;
    }

    /** `filteredAndSortedItems`: copies the list, filters the copy, sorts it in place.
        The fetched list itself is never touched. */
    method FilteredAndSortedItems() returns (r: seq<Item>)
      ensures r == Derived(items, filter, sortOption, searchQuery)
    {
      var processed := items;
      if filter != ALL {
        processed := FilterByType(processed, filter);
      }
      if searchQuery != "" {
        processed := FilterBySearch(processed, searchQuery);
      }
      var a := new Item[|processed|](k requires 0 <= k < |processed| => processed[k]);
      assert a[..] == processed;
      var key := ParseSortOption(sortOption);
      if key.Some? {
        SortInPlace(a, key.value);
      }
      r := a[..];
    }
  }
}
