/** The admin product list's search box (admin/src/pages/List.jsx): a product is listed when its
    name or its category contains the search term, ignoring case. */
module AdminList {
  import opened Text
  import opened Seqs
  import opened Catalogue

  /** The filter predicate of `filteredList`. */
  predicate Listed(item: Product, searchTerm: string) {
    var term := Lower(searchTerm);
    Contains(Lower(item.name), term) || Contains(Lower(item.category), term)
  }

  /** `filteredList`: the listed products, in the list's order. */
  function FilteredList(list: seq<Product>, searchTerm: string): (r: seq<Product>)
    ensures IsSubsequence(r, list)
    ensures forall item :: item in r <==> item in list && Listed(item, searchTerm)
  {
    FilterIsSubsequence(list, (item: Product) => Listed(item, searchTerm));
    Filter(list, (item: Product) => Listed(item, searchTerm))
  }

  /** An empty search term lists every product. */
  lemma EmptyTermListsAll(list: seq<Product>)
    ensures FilteredList(list, "") == list
  {
    forall i | 0 <= i < |list| ensures Listed(list[i], "") {
      ContainsEmpty(Lower(list[i].name));
    }
    FilterKeepsAll(list, (item: Product) => Listed(item, ""));
  }

  /** Changing the letter case of the search term does not change the list. */
  lemma CaseOfTermIrrelevant(list: seq<Product>, t1: string, t2: string)
    requires SameIgnoringCase(t1, t2)
    ensures FilteredList(list, t1) == FilteredList(list, t2)
  {
    SameIgnoringCaseLower(t1, t2);
    FilterCongruent(list, (item: Product) => Listed(item, t1), (item: Product) => Listed(item, t2));
  }
}
