/**
 * The catalog grid's visible list: a category filter, then a case-insensitive
 * title search, then one of three stable sorts, run in place on a local copy.
 */
module ProductFeed {
  import opened JsString
  import opened JsArray
  import opened Data

  /** The category selector, with its "All" sentinel. */
  datatype CategoryFilter = All | Only(category: Category)

  datatype SortOption = Newest | PriceAsc | PriceDesc

  // ---------------------------------------------------------------------
  // The two filters

  predicate InCategory(p: Product, selected: CategoryFilter) {
    selected.All? || p.category == selected.category
  }

  /** The lower-cased title contains the lower-cased query. */
  predicate TitleMatches(p: Product, query: string) {
    Includes(ToLowerCase(p.title), ToLowerCase(query))
  }

  /** What the grid should show, before sorting: both filters hold. */
  predicate Visible(p: Product, selected: CategoryFilter, query: string) {
    InCategory(p, selected) && (query == "" || TitleMatches(p, query))
  }

  /** The category step: "All" keeps the list as it is. */
  function CategoryStage(products: seq<Product>, selected: CategoryFilter): (r: seq<Product>)
    ensures selected.All? ==> r == products
    ensures forall p :: p in r <==> p in products && InCategory(p, selected)
  {
    if selected.All? then products
    else
      FilterMembership(products, (p: Product) => p.category == selected.category);
      Filter(products, (p: Product) => p.category == selected.category)
  }

  /** The search step: an empty query keeps the list as it is. */
  function SearchStage(products: seq<Product>, query: string): (r: seq<Product>)
    ensures query == "" ==> r == products
    ensures forall p :: p in r <==> p in products && (query == "" || TitleMatches(p, query))
  {
    if query == "" then products
    else
      FilterMembership(products, (p: Product) => TitleMatches(p, query));
      Filter(products, (p: Product) => TitleMatches(p, query))
  }

  /** The reference list: the products satisfying both filters, in catalog order. */
  function VisibleProducts(products: seq<Product>, selected: CategoryFilter, query: string): (r: seq<Product>)
    ensures forall p :: p in r <==> p in products && Visible(p, selected, query)
  {
    FilterMembership(products, (p: Product) => Visible(p, selected, query));
    Filter(products, (p: Product) => Visible(p, selected, query))
  }

  lemma {:induction false} FilterSamePredicate(s: seq<Product>, f: Product -> bool, g: Product -> bool)
    requires forall x :: f(x) == g(x)
    ensures Filter(s, f) == Filter(s, g)
  {
    if s != [] {
      FilterSamePredicate(s[1..], f, g);
    }
  }

  /** The two filters are conjunctive: one after the other keeps exactly the
      visible products, in catalog order. */
  lemma StagesAreConjunctive(products: seq<Product>, selected: CategoryFilter, query: string)
    ensures SearchStage(CategoryStage(products, selected), query) == VisibleProducts(products, selected, query)
  {
    var visible := (p: Product) => Visible(p, selected, query);
    var titled := (p: Product) => TitleMatches(p, query);
    if selected.All? {
      if query == "" {
        FilterAll(products, visible);
      } else {
        FilterSamePredicate(products, titled, visible);
      }
    } else {
      var inCategory := (p: Product) => p.category == selected.category;
      if query == "" {
        FilterSamePredicate(products, inCategory, visible);
      } else {
        FilterFilter(products, inCategory, titled, visible);
      }
    }
  }

  /** The search ignores the case of the query: two queries that lower-case alike
      (for example a query and its upper-cased form) select the same products. */
  lemma SearchIgnoresCase(products: seq<Product>, query: string, other: string)
    requires ToLowerCase(query) == ToLowerCase(other)
    ensures SearchStage(products, query) == SearchStage(products, other)
  {
    assert |query| == |ToLowerCase(query)| == |other|;
    if query != "" {
      FilterSamePredicate(products, (p: Product) => TitleMatches(p, query), (p: Product) => TitleMatches(p, other));
    }
  }

  lemma SearchIgnoresUpperCase(products: seq<Product>, query: string)
    ensures SearchStage(products, ToUpperCase(query)) == SearchStage(products, query)
  {
    LowerOfUpper(query);
    SearchIgnoresCase(products, ToUpperCase(query), query);
  }

  // ---------------------------------------------------------------------
  // The three sorts, as one stable sort by an integer key

  /** `Number(id)` on a digit string. */
  function IdNumber(id: string): (n: nat)
    ensures AllDigits(id) ==> n == DecimalValue(id)
  {
    if AllDigits(id) then DecimalValue(id) else 0
  }

  /** Each comparator is `Key(a) - Key(b)`: prices up, prices down, ids down. */
  function Key(p: Product, mode: SortOption): (k: int)
    ensures mode.PriceAsc? ==> k == p.priceUsd
    ensures mode.PriceDesc? ==> k == -p.priceUsd
    ensures mode.Newest? && AllDigits(p.id) ==> k == -(DecimalValue(p.id) as int)
  {
    match mode
    case PriceAsc => p.priceUsd
    case PriceDesc => -p.priceUsd
    case Newest => -(IdNumber(p.id) as int)
  }

  predicate Sorted(s: seq<Product>, mode: SortOption) {
    forall i, j :: 0 <= i < j < |s| ==> Key(s[i], mode) <= Key(s[j], mode)
  }

  /** The products whose key is `k`, in their order in `s`. */
  function WithKey(s: seq<Product>, mode: SortOption, k: int): seq<Product> {
    Filter(s, (p: Product) => Key(p, mode) == k)
  }

  /** Inserts `x` after every element whose key is not greater than its own. */
  function Insert(t: seq<Product>, x: Product, mode: SortOption): (r: seq<Product>)
    ensures |r| == |t| + 1
  {
    if t == [] || Key(t[|t| - 1], mode) <= Key(x, mode) then t + [x]
    else Insert(t[..|t| - 1], x, mode) + [t[|t| - 1]]
  }

  /** Insertion sort, one element at a time from the left, as the array method does it. */
  function StableSort(s: seq<Product>, mode: SortOption): (r: seq<Product>)
    ensures |r| == |s|
  {
    if s == [] then []
    else
      Insert(StableSort(s[..|s| - 1], mode), s[|s| - 1], mode)
  }

  /** Where the array method's inner loop stops: `x` goes after `t[..j]`. */
  lemma {:induction false} InsertSplit(t: seq<Product>, x: Product, mode: SortOption, j: nat)
    requires j <= |t|
    requires j == 0 || Key(t[j - 1], mode) <= Key(x, mode)
    requires forall m :: j <= m < |t| ==> Key(t[m], mode) > Key(x, mode)
    decreases |t|
    ensures Insert(t, x, mode) == t[..j] + [x] + t[j..]
  {
    if j < |t| {
      var init := t[..|t| - 1];
      var last := t[|t| - 1];
      forall m | j <= m < |init| ensures Key(init[m], mode) > Key(x, mode) {
        assert init[m] == t[m];
      }
      assert j == 0 || init[j - 1] == t[j - 1];
      InsertSplit(init, x, mode, j);
      calc {
        Insert(t, x, mode);
        { assert Key(last, mode) > Key(x, mode); }
        Insert(init, x, mode) + [last];
        init[..j] + [x] + init[j..] + [last];
        { assert init[..j] == t[..j]; assert init[j..] + [last] == t[j..]; }
        t[..j] + [x] + t[j..];
      }
    } else {
      assert t[..j] == t;
    }
  }

  /** Inserting adds exactly one occurrence of `x`. */
  lemma {:induction false} InsertMultiset(t: seq<Product>, x: Product, mode: SortOption)
    ensures multiset(Insert(t, x, mode)) == multiset(t) + multiset{x}
  {
    if t != [] && Key(t[|t| - 1], mode) > Key(x, mode) {
      var init := t[..|t| - 1];
      assert t == init + [t[|t| - 1]];
      InsertMultiset(init, x, mode);
    }
  }

  /** The sort is a permutation of its input. */
  lemma {:induction false} StableSortMultiset(s: seq<Product>, mode: SortOption)
    ensures multiset(StableSort(s, mode)) == multiset(s)
  {
    if s != [] {
      var init := s[..|s| - 1];
      assert s == init + [s[|s| - 1]];
      StableSortMultiset(init, mode);
      InsertMultiset(StableSort(init, mode), s[|s| - 1], mode);
    }
  }

  /** Every key in a sorted list is at most the key of its last element. */
  lemma {:induction false} InsertSorted(t: seq<Product>, x: Product, mode: SortOption)
    requires Sorted(t, mode)
    ensures Sorted(Insert(t, x, mode), mode)
  {
    if t == [] || Key(t[|t| - 1], mode) <= Key(x, mode) {
      forall y | y in t ensures Key(y, mode) <= Key(x, mode) {
        var m :| 0 <= m < |t| && t[m] == y;
      }
      SortedAppend(t, x, mode);
    } else {
      var init := t[..|t| - 1];
      var last := t[|t| - 1];
      assert Sorted(init, mode);
      InsertSorted(init, x, mode);
      var r := Insert(init, x, mode);
      InsertMultiset(init, x, mode);
      forall y | y in r ensures Key(y, mode) <= Key(last, mode) {
        assert y in multiset(r);
        if y != x {
          assert y in multiset(init);
          var m :| 0 <= m < |init| && init[m] == y;
          assert t[m] == y;
        }
      }
      SortedAppend(r, last, mode);
    }
  }

  /** A sorted list stays sorted when an element with the greatest key is appended. */
  lemma SortedAppend(r: seq<Product>, last: Product, mode: SortOption)
    requires Sorted(r, mode)
    requires forall y :: y in r ==> Key(y, mode) <= Key(last, mode)
    ensures Sorted(r + [last], mode)
  {
    var result := r + [last];
    forall i, j | 0 <= i < j < |result| ensures Key(result[i], mode) <= Key(result[j], mode) {
      assert result[i] == r[i] && r[i] in r;
      if j < |r| {
        assert result[j] == r[j];
      }
    }
  }

  lemma WithKeyAppend(s: seq<Product>, y: Product, mode: SortOption, k: int)
    ensures WithKey(s + [y], mode, k) == WithKey(s, mode, k) + (if Key(y, mode) == k then [y] else [])
  {
    FilterConcat(s, [y], (p: Product) => Key(p, mode) == k);
    assert [y][1..] == [];
  }

  /** Inserting `x` puts it after every element with its key, so each key class
      keeps its order and `x` joins the end of its own. */
  lemma {:induction false} InsertWithKey(t: seq<Product>, x: Product, mode: SortOption, k: int)
    ensures WithKey(Insert(t, x, mode), mode, k) == WithKey(t, mode, k) + (if Key(x, mode) == k then [x] else [])
  {
    if t == [] || Key(t[|t| - 1], mode) <= Key(x, mode) {
      WithKeyAppend(t, x, mode, k);
    } else {
      var init := t[..|t| - 1];
      var last := t[|t| - 1];
      assert t == init + [last];
      InsertWithKey(init, x, mode, k);
      WithKeyAppend(Insert(init, x, mode), last, mode, k);
      WithKeyAppend(init, last, mode, k);
    }
  }

  /** The sort orders by the key. */
  lemma {:induction false} StableSortSorted(s: seq<Product>, mode: SortOption)
    ensures Sorted(StableSort(s, mode), mode)
  {
    if s != [] {
      StableSortSorted(s[..|s| - 1], mode);
      InsertSorted(StableSort(s[..|s| - 1], mode), s[|s| - 1], mode);
    }
  }

  /** The sort is stable: the products sharing a key keep their relative order. */
  lemma {:induction false} StableSortKeepsTies(s: seq<Product>, mode: SortOption, k: int)
    ensures WithKey(StableSort(s, mode), mode, k) == WithKey(s, mode, k)
  {
    if s != [] {
      var init := s[..|s| - 1];
      StableSortKeepsTies(init, mode, k);
      InsertWithKey(StableSort(init, mode), s[|s| - 1], mode, k);
      assert s == init + [s[|s| - 1]];
      WithKeyAppend(init, s[|s| - 1], mode, k);
    }
  }

  /** One pass of the insertion sort: `a[i]` moves left past the greater keys of the
      sorted prefix `a[..i]`. */
  method InsertInPlace(a: array<Product>, i: nat, mode: SortOption)
    requires i < a.Length
    modifies a
    ensures a[..] == Insert(old(a[..])[..i], old(a[..])[i], mode) + old(a[..])[i + 1..]
  {
    ghost var before := a[..];
    var x := a[i];
    var j := ShiftGreater(a, i, x, mode);
    a[j] := x;
    ShiftedIsInsert(before, a[..], i, j, mode);
  }

  /** The array after the inner loop and the final store, as sequences. */
  lemma ShiftedIsInsert(before: seq<Product>, after: seq<Product>, i: nat, j: nat, mode: SortOption)
    requires j <= i < |before| == |after|
    requires j == 0 || Key(before[j - 1], mode) <= Key(before[i], mode)
    requires forall m :: j <= m < i ==> Key(before[m], mode) > Key(before[i], mode)
    requires forall m :: 0 <= m < j ==> after[m] == before[m]
    requires after[j] == before[i]
    requires forall m :: j < m <= i ==> after[m] == before[m - 1]
    requires forall m :: i < m < |after| ==> after[m] == before[m]
    ensures after == Insert(before[..i], before[i], mode) + before[i + 1..]
  {
    var t := before[..i];
    InsertSplit(t, before[i], mode, j);
    var ins := t[..j] + [before[i]] + t[j..];
    var r := ins + before[i + 1..];
    forall k | 0 <= k < |after| ensures after[k] == r[k] {
      if k < j {
        assert r[k] == ins[k] == t[k];
      } else if k == j {
        assert r[k] == ins[k] == before[i];
      } else if k <= i {
        assert r[k] == ins[k] == t[k - 1];
      } else {
        assert r[k] == before[k];
      }
    }
    assert after == r;
  }

  /** The inner loop: shifts the elements of `a[..i]` whose key exceeds that of `x`
      one place right, and returns the gap left for `x`. */
  method ShiftGreater(a: array<Product>, i: nat, x: Product, mode: SortOption) returns (j: nat)
    requires i < a.Length
    modifies a
    ensures j <= i
    ensures j == 0 || Key(old(a[j - 1]), mode) <= Key(x, mode)
    ensures forall m :: j <= m < i ==> Key(old(a[m]), mode) > Key(x, mode)
    ensures forall m :: 0 <= m < j ==> a[m] == old(a[m])
    ensures forall m :: j < m <= i ==> a[m] == old(a[m - 1])
    ensures forall m :: i < m < a.Length ==> a[m] == old(a[m])
  {
    j := i;
    while j > 0 && Key(a[j - 1], mode) > Key(x, mode)
      invariant 0 <= j <= i
      invariant forall m :: 0 <= m < j ==> a[m] == old(a[m])
      invariant forall m :: j < m <= i ==> a[m] == old(a[m - 1])
      invariant forall m :: j <= m < i ==> Key(old(a[m]), mode) > Key(x, mode)
      invariant forall m :: i < m < a.Length ==> a[m] == old(a[m])
    {
      a[j] := a[j - 1];
      j := j - 1;
    }
  }

  /** `result.sort(compare)` on the local array: a stable insertion sort. */
  method SortInPlace(a: array<Product>, mode: SortOption)
    modifies a
    ensures a[..] == StableSort(old(a[..]), mode)
  {
    ghost var s := a[..];
    var i := 0;
    while i < a.Length
      invariant 0 <= i <= a.Length
      invariant a[..] == StableSort(s[..i], mode) + s[i..]
    {
      ghost var before := a[..];
      InsertInPlace(a, i, mode);
      SortStep(s, i, mode, before, a[..]);
      i := i + 1;
    }
    assert s[..a.Length] == s && s[a.Length..] == [];
  }

  /** One turn of the outer loop, on sequences: inserting the next element into the
      sorted prefix extends the sorted prefix by one. */
  lemma SortStep(s: seq<Product>, i: nat, mode: SortOption, before: seq<Product>, after: seq<Product>)
    requires i < |s|
    requires before == StableSort(s[..i], mode) + s[i..]
    requires after == Insert(before[..i], before[i], mode) + before[i + 1..]
    ensures after == StableSort(s[..i + 1], mode) + s[i + 1..]
  {
    var sorted := StableSort(s[..i], mode);
    assert before[..i] == sorted;
    assert before[i] == s[i] && before[i + 1..] == s[i + 1..];
    assert s[..i + 1][..i] == s[..i];
  }

  /** The `filteredProducts` memo: filter a copy of the list, sort it, return it.
      The input list itself is a value and is never reordered. */
  method FilteredProducts(products: seq<Product>, searchQuery: string, selected: CategoryFilter, sortBy: SortOption)
    returns (result: seq<Product>)
    requires sortBy.Newest? ==> forall p :: p in products && Visible(p, selected, searchQuery) ==> IsDigitString(p.id)
    ensures result == StableSort(VisibleProducts(products, selected, searchQuery), sortBy)
    ensures forall p :: p in result <==> p in products && Visible(p, selected, searchQuery)
    ensures multiset(result) == multiset(VisibleProducts(products, selected, searchQuery))
    ensures Sorted(result, sortBy)
    ensures forall k :: WithKey(result, sortBy, k) == WithKey(VisibleProducts(products, selected, searchQuery), sortBy, k)
    ensures sortBy.PriceAsc? ==> forall i, j :: 0 <= i < j < |result| ==> result[i].priceUsd <= result[j].priceUsd
    ensures sortBy.PriceDesc? ==> forall i, j :: 0 <= i < j < |result| ==> result[i].priceUsd >= result[j].priceUsd
    ensures sortBy.Newest? ==> forall i, j :: 0 <= i < j < |result| ==>
              AllDigits(result[i].id) && AllDigits(result[j].id) &&
              DecimalValue(result[i].id) >= DecimalValue(result[j].id)
  {
    var filtered := products;
    filtered := CategoryStage(filtered, selected);
    filtered := SearchStage(filtered, searchQuery);
    result := SortedCopy(filtered, sortBy);
    StagesAreConjunctive(products, selected, searchQuery);
    FeedIsPermutation(VisibleProducts(products, selected, searchQuery), sortBy);
    FeedOrder(products, selected, searchQuery, sortBy);
  }

  /** `result.sort(...)` on the local copy: the list is copied into a fresh array,
      which is sorted in place and read back. */
  method SortedCopy(s: seq<Product>, sortBy: SortOption) returns (r: seq<Product>)
    ensures r == StableSort(s, sortBy)
  {
    var a := new Product[|s|](i requires 0 <= i < |s| => s[i]);
    assert a[..] == s;
    SortInPlace(a, sortBy);
    r := a[..];
  }

  /** The sorted list holds exactly the visible products, each as often as before,
      and every set of ties in its original order. */
  lemma FeedIsPermutation(visible: seq<Product>, sortBy: SortOption)
    ensures multiset(StableSort(visible, sortBy)) == multiset(visible)
    ensures forall p :: p in StableSort(visible, sortBy) <==> p in visible
    ensures forall k :: WithKey(StableSort(visible, sortBy), sortBy, k) == WithKey(visible, sortBy, k)
  {
    var result := StableSort(visible, sortBy);
    StableSortMultiset(visible, sortBy);
    forall k ensures WithKey(result, sortBy, k) == WithKey(visible, sortBy, k) {
      StableSortKeepsTies(visible, sortBy, k);
    }
    forall p ensures p in result <==> p in visible {
      assert p in result <==> p in multiset(result);
    }
  }

  /** What the sort modes mean for the visible list: prices up, prices down, or
      numeric ids down. */
  lemma FeedOrder(products: seq<Product>, selected: CategoryFilter, searchQuery: string, sortBy: SortOption)
    requires sortBy.Newest? ==> forall p :: p in products && Visible(p, selected, searchQuery) ==> IsDigitString(p.id)
    ensures var result := StableSort(VisibleProducts(products, selected, searchQuery), sortBy);
      && Sorted(result, sortBy)
      && (sortBy.PriceAsc? ==> forall i, j :: 0 <= i < j < |result| ==> result[i].priceUsd <= result[j].priceUsd)
      && (sortBy.PriceDesc? ==> forall i, j :: 0 <= i < j < |result| ==> result[i].priceUsd >= result[j].priceUsd)
      && (sortBy.Newest? ==> forall i, j :: 0 <= i < j < |result| ==>
            AllDigits(result[i].id) && AllDigits(result[j].id) &&
            DecimalValue(result[i].id) >= DecimalValue(result[j].id))
  {
    var visible := VisibleProducts(products, selected, searchQuery);
    var result := StableSort(visible, sortBy);
    StableSortSorted(visible, sortBy);
    if sortBy.Newest? {
      FeedIsPermutation(visible, sortBy);
      forall i, j | 0 <= i < j < |result|
        ensures AllDigits(result[i].id) && AllDigits(result[j].id) && DecimalValue(result[i].id) >= DecimalValue(result[j].id)
      {
        assert result[i] in result && result[j] in result;
        assert Key(result[i], sortBy) <= Key(result[j], sortBy);
      }
    }
  }

  /** The component as written: the memo runs on the static catalog, whose numeric
      ids make every sort mode defined. */
  method CatalogFeed(searchQuery: string, selected: CategoryFilter, sortBy: SortOption)
    returns (result: seq<Product>)
    ensures result == StableSort(VisibleProducts(Products, selected, searchQuery), sortBy)
    ensures forall p :: p in result <==> p in Products && Visible(p, selected, searchQuery)
    ensures Sorted(result, sortBy)
  {
    FixtureIdsNumericAndDistinct();
    result := FilteredProducts(Products, searchQuery, selected, sortBy);
  }
}
