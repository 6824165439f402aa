/**
  The derived views of the product overview (src/screens/ProductsScreen.tsx):
  the search and category filter and the grouping of the result by category.
 */
module ProductsScreen {
  import opened Seqs
  import opened Types
  import opened Text
  import opened Grouping

  /** `!selectedCategoryId || product.categoryId === selectedCategoryId`: an empty id selects nothing. */
  predicate MatchesCategory(p: Product, selected: Option<string>) {
    selected.None? || selected.value == "" || p.categoryId == Some(selected.value)
  }

  /** `filteredProducts`: the products matching both the name search and the category filter, in order. */
  function FilteredProducts(products: seq<Product>, searchText: string, selected: Option<string>): (r: seq<Product>)
    ensures forall k :: 0 <= k < |r| ==>
      r[k] in products && MatchesSearch(r[k].name, searchText) && MatchesCategory(r[k], selected)
    ensures forall k :: 0 <= k < |products| ==>
      (MatchesSearch(products[k].name, searchText) && MatchesCategory(products[k], selected) ==> products[k] in r)
    ensures IsSubsequence(r, products)
    ensures |r| == Count(products, (p: Product) => MatchesSearch(p.name, searchText) && MatchesCategory(p, selected))
  {
    CountIsFilterLength(products, (p: Product) => MatchesSearch(p.name, searchText) && MatchesCategory(p, selected));
    Filter(products, (p: Product) => MatchesSearch(p.name, searchText) && MatchesCategory(p, selected))
  }

  /** With no category selected only the search applies, and an empty search keeps every product. */
  lemma NoCategoryIsSearchOnly(products: seq<Product>, searchText: string)
    ensures FilteredProducts(products, searchText, None) ==
      Filter(products, (p: Product) => MatchesSearch(p.name, searchText))
    ensures FilteredProducts(products, "", None) == products
  {
    FilterCongruent(products,
      (p: Product) => MatchesSearch(p.name, searchText) && MatchesCategory(p, None),
      (p: Product) => MatchesSearch(p.name, searchText));
    forall k | 0 <= k < |products| ensures MatchesSearch(products[k].name, "") {
      EmptySearchMatches(products[k].name);
    }
  }

  /** With a category selected every result carries it, so uncategorized products drop out. */
  lemma SelectedCategoryOnly(products: seq<Product>, searchText: string, categoryId: string)
    requires categoryId != ""
    ensures var r := FilteredProducts(products, searchText, Some(categoryId));
      forall k :: 0 <= k < |r| ==> r[k].categoryId == Some(categoryId) && GroupKey(r[k]) == categoryId
  {
  }

  /**
    `groupedProducts`: the filtered products bucketed by category; the buckets
    partition the filtered products and each keeps their order.
   */
  function GroupedProducts(products: seq<Product>, searchText: string, selected: Option<string>): (r: seq<Group>)
    ensures TotalSize(r) == |FilteredProducts(products, searchText, selected)|
    ensures forall i :: 0 <= i < |r| ==> r[i].products == WithKey(FilteredProducts(products, searchText, selected), r[i].key)
    ensures forall i, j :: 0 <= i < j < |r| ==> r[i].key != r[j].key
    ensures forall i, j :: 0 <= i < j < |r| ==>
      FirstIndex(FilteredProducts(products, searchText, selected), r[i].key) <
      FirstIndex(FilteredProducts(products, searchText, selected), r[j].key)
  {
    var filtered := FilteredProducts(products, searchText, selected);
    GroupByCategoryShape(filtered);
    GroupSizesSum(filtered);
    GroupByCategory(filtered)
  }
}
