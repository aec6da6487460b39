/** The storefront's collection page (frontend/src/pages/Collection.jsx): category and
    sub-category toggles, the search and filter pipeline, and sorting by price. */
module Catalogue {
  import opened Base
  import opened Text
  import opened Seqs

  /** A catalogue product, as the shop context holds it. Prices are whole numbers here. */
  datatype Product = Product(
    id: string,
    name: string,
    description: Option<string>,
    price: int,
    category: string,
    subCategory: string)

  /** `prev.filter(item => item !== v)` */
  function Without(sel: seq<string>, v: string): (r: seq<string>)
    ensures v !in r
    ensures forall x :: x != v ==> (x in r <==> x in sel)
  {
    Filter(sel, (x: string) => x != v)
  }

  /** `toggleCategory` / `toggleSubCategory`: remove the checkbox value when it is selected,
      append it otherwise. */
  function Toggle(sel: seq<string>, v: string): (r: seq<string>)
    ensures v in r <==> v !in sel
    ensures forall x :: x != v ==> (x in r <==> x in sel)
  {
    if v in sel then Without(sel, v) else sel + [v]
  }

  /** Toggling the same value twice restores the same selected set. */
  lemma ToggleTwice(sel: seq<string>, v: string)
    ensures forall x :: x in Toggle(Toggle(sel, v), v) <==> x in sel
  {
  }

  /** `item.description || ""` */
  function DescriptionText(p: Product): string {
    p.description.GetOr("")
  }

  /** The lower-cased join of name, category, sub-category and description that search terms
      are looked up in. */
  function Searchable(p: Product): string {
    Lower(p.name + " " + p.category + " " + p.subCategory + " " + DescriptionText(p))
  }

  /** The searchable string holds each of the four fields, lower-cased, separated by single
      spaces; so a term found in any lower-cased field is found in it. */
  lemma SearchableHoldsFields(p: Product)
    ensures |Searchable(p)| == |p.name| + |p.category| + |p.subCategory| + |DescriptionText(p)| + 3
    ensures Contains(Searchable(p), Lower(p.name)) && Contains(Searchable(p), Lower(p.category))
    ensures Contains(Searchable(p), Lower(p.subCategory))
    ensures Contains(Searchable(p), Lower(DescriptionText(p)))
  {
    var n, c, sc, d := p.name, p.category, p.subCategory, DescriptionText(p);
    JoinHoldsName(n, c, sc, d);
    JoinHoldsCategory(n, c, sc, d);
    JoinHoldsSubCategory(n, c, sc, d);
    JoinHoldsDescription(n, c, sc, d);
  }

  /** Each of four fields joined by single spaces occurs, lower-cased, in the lower-cased join. */
  lemma JoinHoldsName(a: string, b: string, c: string, d: string)
    ensures Contains(Lower(a + " " + b + " " + c + " " + d), Lower(a))
  {
    assert a + " " + b + " " + c + " " + d == [] + a + (" " + b + " " + c + " " + d);
    LowerKeepsMiddle([], a, " " + b + " " + c + " " + d);
  }

  lemma JoinHoldsCategory(a: string, b: string, c: string, d: string)
    ensures Contains(Lower(a + " " + b + " " + c + " " + d), Lower(b))
  {
    assert a + " " + b + " " + c + " " + d == (a + " ") + b + (" " + c + " " + d);
    LowerKeepsMiddle(a + " ", b, " " + c + " " + d);
  }

  lemma JoinHoldsSubCategory(a: string, b: string, c: string, d: string)
    ensures Contains(Lower(a + " " + b + " " + c + " " + d), Lower(c))
  {
    assert a + " " + b + " " + c + " " + d == (a + " " + b + " ") + c + (" " + d);
    LowerKeepsMiddle(a + " " + b + " ", c, " " + d);
  }

  lemma JoinHoldsDescription(a: string, b: string, c: string, d: string)
    ensures Contains(Lower(a + " " + b + " " + c + " " + d), Lower(d))
  {
    assert a + " " + b + " " + c + " " + d == (a + " " + b + " " + c + " ") + d + [];
    LowerKeepsMiddle(a + " " + b + " " + c + " ", d, []);
  }

  /** `search.toLowerCase().trim().split(/\s+/)` */
  function SearchTerms(search: string): (terms: seq<string>)
    ensures |terms| >= 1
  {
    SplitOnSpaces(Trim(Lower(search)))
  }

  /** The search terms are the words of the lower-cased, trimmed search: joined with single spaces
      they give it back with its runs of `\s` collapsed, and none holds `\s`. A blank search gives
      the single term "", and any other search only non-empty terms. */
  lemma SearchTermsAreWords(search: string)
    ensures Join(SearchTerms(search)) == CollapseSpaces(Trim(Lower(search)))
    ensures forall t :: t in SearchTerms(search) ==> forall i :: 0 <= i < |t| ==> !IsSpace(t[i])
    ensures Trim(Lower(search)) == [] ==> SearchTerms(search) == [[]]
    ensures Trim(Lower(search)) != [] ==> forall t :: t in SearchTerms(search) ==> t != []
  {
    if Trim(Lower(search)) != [] {
      SplitTrimmed(Lower(search));
    }
  }

  /** `searchTerms.every(term => searchableString.includes(term))` */
  predicate MatchesAll(p: Product, terms: seq<string>) {
    forall t :: t in terms ==> Contains(Searchable(p), t)
  }

  /** `showSearch && search`: search runs only when shown and the search string is non-empty. */
  predicate SearchActive(showSearch: bool, search: string) {
    showSearch && search != ""
  }

  function SearchStep(products: seq<Product>, search: string, showSearch: bool): seq<Product> {
    if SearchActive(showSearch, search) then
      var terms := SearchTerms(search);
      Filter(products, (p: Product) => MatchesAll(p, terms))
    else products
  }

  function CategoryStep(products: seq<Product>, category: seq<string>): seq<Product> {
    if |category| > 0 then Filter(products, (p: Product) => p.category in category) else products
  }

  function SubCategoryStep(products: seq<Product>, subCategory: seq<string>): seq<Product> {
    if |subCategory| > 0 then Filter(products, (p: Product) => p.subCategory in subCategory) else products
  }

  /** The products the page shows before sorting: search, then category, then sub-category. */
  function Visible(products: seq<Product>, search: string, showSearch: bool,
                   category: seq<string>, subCategory: seq<string>): seq<Product>
  {
    SubCategoryStep(CategoryStep(SearchStep(products, search, showSearch), category), subCategory)
  }

  /** A product is shown exactly when it is in the catalogue and passes each active filter; an
      empty selection keeps every product. */
  lemma VisibleIff(products: seq<Product>, search: string, showSearch: bool,
                   category: seq<string>, subCategory: seq<string>, p: Product)
    ensures p in Visible(products, search, showSearch, category, subCategory) <==>
      && p in products
      && (SearchActive(showSearch, search) ==> MatchesAll(p, SearchTerms(search)))
      && (|category| > 0 ==> p.category in category)
      && (|subCategory| > 0 ==> p.subCategory in subCategory)
  {
  }

  /** The unsorted result keeps the catalogue's order: it is a subsequence of `products`. */
  lemma VisibleIsSubsequence(products: seq<Product>, search: string, showSearch: bool,
                             category: seq<string>, subCategory: seq<string>)
    ensures IsSubsequence(Visible(products, search, showSearch, category, subCategory), products)
  {
    var s1 := SearchStep(products, search, showSearch);
    var s2 := CategoryStep(s1, category);
    var s3 := SubCategoryStep(s2, subCategory);
    SubsequenceReflexive(products);
    SubsequenceReflexive(s1);
    SubsequenceReflexive(s2);
    if SearchActive(showSearch, search) {
      var terms := SearchTerms(search);
      FilterIsSubsequence(products, (p: Product) => MatchesAll(p, terms));
    }
    if |category| > 0 {
      FilterIsSubsequence(s1, (p: Product) => p.category in category);
    }
    if |subCategory| > 0 {
      FilterIsSubsequence(s2, (p: Product) => p.subCategory in subCategory);
    }
    SubsequenceTransitive(s2, s1, products);
    SubsequenceTransitive(s3, s2, products);
  }

  /** A search string of white space only is truthy, so search runs, but its one term is the
      empty string, which every product contains: nothing is filtered out. */
  lemma BlankSearchKeepsAll(products: seq<Product>, search: string)
    requires search != [] && Trim(Lower(search)) == []
    ensures SearchStep(products, search, true) == products
  {
    assert SearchTerms(search) == [""];
    forall i | 0 <= i < |products| ensures MatchesAll(products[i], SearchTerms(search)) {
      ContainsEmpty(Searchable(products[i]));
    }
    FilterKeepsAll(products, (p: Product) => MatchesAll(p, SearchTerms(search)));
  }

  /** The two price orders of the sort select. */
  datatype Direction = LowHigh | HighLow

  /** `x` may stand before `y`: the comparator `a.price - b.price` (or its reverse) is not
      positive. */
  predicate InOrder(dir: Direction, x: Product, y: Product) {
    match dir
    case LowHigh => x.price <= y.price
    case HighLow => x.price >= y.price
  }

  predicate SortedBy(s: seq<Product>, dir: Direction) {
    forall i, j :: 0 <= i < j < |s| ==> InOrder(dir, s[i], s[j])
  }

  /** While the element at `j` moves down: the first `i + 1` elements are in order apart from
      position `j`, and the element at `j` is in order with everything after it. */
  predicate Inserting(s: seq<Product>, i: nat, j: nat, dir: Direction)
    requires j <= i < |s|
  {
    && (forall k, m :: 0 <= k < m <= i && k != j && m != j ==> InOrder(dir, s[k], s[m]))
    && (forall m :: j < m <= i ==> InOrder(dir, s[j], s[m]))
  }

  /** Swapping an element with a predecessor it belongs before moves the gap one place down. */
  lemma SwapDown(s: seq<Product>, i: nat, j: nat, dir: Direction)
    requires 0 < j <= i < |s| && Inserting(s, i, j, dir) && !InOrder(dir, s[j - 1], s[j])
    ensures Inserting(s[j - 1 := s[j]][j := s[j - 1]], i, j - 1, dir)
  {
  }

  /** Once the element at `j` is in order with its predecessor (or first), the prefix is sorted. */
  lemma InsertDone(s: seq<Product>, i: nat, j: nat, dir: Direction)
    requires j <= i < |s| && Inserting(s, i, j, dir)
    requires j > 0 ==> InOrder(dir, s[j - 1], s[j])
    ensures SortedBy(s[..i + 1], dir)
  {
  }

  /** One pass of the insertion sort: the element at `i` moves down past every predecessor it
      belongs before, so the first `i + 1` elements end up in order. */
  method InsertAt(a: array<Product>, i: nat, dir: Direction)
    requires i < a.Length && SortedBy(a[..i], dir)
    modifies a
    ensures SortedBy(a[..i + 1], dir)
    ensures multiset(a[..]) == multiset(old(a[..]))
  {
    assert forall k :: 0 <= k < i ==> a[..i][k] == a[k];
    var j := i;
    while j > 0 && !InOrder(dir, a[j - 1], a[j])
      invariant 0 <= j <= i
      invariant Inserting(a[..], i, j, dir)
      invariant multiset(a[..]) == multiset(old(a[..]))
    {
      SwapDown(a[..], i, j, dir);
      ghost var before := a[..];
      a[j - 1], a[j] := a[j], a[j - 1];
      assert a[..] == before[j - 1 := before[j]][j := before[j - 1]];
      j := j - 1;
    }
    InsertDone(a[..], i, j, dir);
    assert a[..i + 1] == a[..][..i + 1];
  }

  /** `filtered.sort(comparator)`, in place: an insertion sort by adjacent swaps. */
  method SortByPrice(a: array<Product>, dir: Direction)
    modifies a
    ensures SortedBy(a[..], dir)
    ensures multiset(a[..]) == multiset(old(a[..]))
  {
    var i := 0;
    while i < a.Length
      invariant 0 <= i <= a.Length
      invariant SortedBy(a[..i], dir)
      invariant multiset(a[..]) == multiset(old(a[..]))
    {
      InsertAt(a, i, dir);
      i := i + 1;
    }
    assert a[..a.Length] == a[..];
  }

  /** The `useEffect` pipeline: copy the products, filter step by step, then sort in place for
      "low-high" and "high-low"; any other sort type leaves the filtered order. */
  method Refresh(products: seq<Product>, search: string, showSearch: bool,
                 category: seq<string>, subCategory: seq<string>, sortType: string)
    returns (shown: seq<Product>)
    ensures sortType == "low-high" ==> SortedBy(shown, LowHigh)
    ensures sortType == "high-low" ==> SortedBy(shown, HighLow)
    ensures multiset(shown) == multiset(Visible(products, search, showSearch, category, subCategory))
    ensures sortType != "low-high" && sortType != "high-low" ==>
      shown == Visible(products, search, showSearch, category, subCategory)
  {
    var filtered := SearchStep(products, search, showSearch);
    filtered := CategoryStep(filtered, category);
    filtered := SubCategoryStep(filtered, subCategory);
    var a := new Product[|filtered|](i requires 0 <= i < |filtered| => filtered[i]);
    assert a[..] == filtered;
    if sortType == "low-high" {
      SortByPrice(a, LowHigh);
    } else if sortType == "high-low" {
      SortByPrice(a, HighLow);
    }
    shown := a[..];
  }
}
