/**
  The derived views of one shopping list (src/screens/ListDetailScreen.tsx):
  which products are on the list, the progress figure, the category sections,
  the products still available to add, and the per-product checked flag.
 */
module ListDetailScreen {
  import opened Seqs
  import opened Types
  import opened Text
  import opened Grouping
  import opened ListContext
  import ProductContext
  import CategoryHelper

  /** `listProductIds`: the product ids of this list's items, in relation order. */
  function ListProductIds(items: seq<ShoppingListItem>, listId: string): (ids: seq<string>)
    ensures forall productId :: productId in ids <==> HasPair(items, listId, productId)
  {
    var own := GetListItems(items, listId);
    var ids := seq(|own|, k requires 0 <= k < |own| => own[k].productId);
    assert forall productId :: HasPair(items, listId, productId) ==> productId in ids by {
      forall productId | HasPair(items, listId, productId) ensures productId in ids {
        var k :| 0 <= k < |items| && IsPair(items[k], listId, productId);
        var m :| 0 <= m < |own| && own[m] == items[k];
        assert ids[m] == productId;
      }
    }
    assert forall k :: 0 <= k < |ids| ==> HasPair(items, listId, ids[k]) by {
      forall k | 0 <= k < |ids| ensures HasPair(items, listId, ids[k]) {
        var m :| 0 <= m < |items| && items[m] == own[k];
        assert IsPair(items[m], listId, ids[k]);
      }
    }
    ids
  }

  /** `listProducts`: the products some item of this list points at, in product order. */
  function ListProducts(products: seq<Product>, items: seq<ShoppingListItem>, listId: string): (r: seq<Product>)
    ensures forall k :: 0 <= k < |r| ==> r[k] in products && HasPair(items, listId, r[k].id)
    ensures forall k :: 0 <= k < |products| && HasPair(items, listId, products[k].id) ==> products[k] in r
    ensures IsSubsequence(r, products)
  {
    var ids := ListProductIds(items, listId);
    Filter(products, (p: Product) => p.id in ids)
  }

  /** `availableProducts`: the products no item of this list points at, in product order. */
  function AvailableProducts(products: seq<Product>, items: seq<ShoppingListItem>, listId: string): (r: seq<Product>)
    ensures forall k :: 0 <= k < |r| ==> r[k] in products && !HasPair(items, listId, r[k].id)
    ensures forall k :: 0 <= k < |products| && !HasPair(items, listId, products[k].id) ==> products[k] in r
    ensures IsSubsequence(r, products)
  {
    var ids := ListProductIds(items, listId);
    Filter(products, (p: Product) => p.id !in ids)
  }

  /** The list's products and the available ones split the product collection between them. */
  lemma ListAndAvailablePartition(products: seq<Product>, items: seq<ShoppingListItem>, listId: string)
    ensures |ListProducts(products, items, listId)| + |AvailableProducts(products, items, listId)| == |products|
    ensures forall k :: 0 <= k < |products| ==>
      (products[k] in ListProducts(products, items, listId) <==> products[k] !in AvailableProducts(products, items, listId))
  {
    var ids := ListProductIds(items, listId);
    FilterComplement(products, (p: Product) => p.id in ids, (p: Product) => p.id !in ids);
  }

  /** `completedItems`: the checked items of this list; items, not products, are counted. */
  function CompletedItems(items: seq<ShoppingListItem>, listId: string): (n: nat)
    ensures n <= |GetListItems(items, listId)|
    ensures n == Count(items, (item: ShoppingListItem) => item.shoppingListId == listId && item.isChecked)
  {
    var checked := (item: ShoppingListItem) => item.shoppingListId == listId && item.isChecked;
    var ofList := (item: ShoppingListItem) => item.shoppingListId == listId;
    CountIsFilterLength(items, checked);
    CountIsFilterLength(items, ofList);
    CountMonotone(items, checked, ofList);
    FilterCongruent(items, ofList, (item: ShoppingListItem) => item.shoppingListId == listId);
    |Filter(items, checked)|
  }

  /** `r` is `completed / total` whenever the total is positive. */
  predicate IsRatio(r: real, completed: nat, total: nat) {
    total > 0 ==> r * total as real == completed as real
  }

  /** `completed / total`, or 0 when there is nothing to complete. */
  function Ratio(completed: nat, total: nat): (r: real)
    ensures r >= 0.0
    ensures total == 0 ==> r == 0.0
    ensures total > 0 ==> (r <= 1.0 <==> completed <= total)
    ensures total > 0 ==> (r == 1.0 <==> completed == total)
    ensures IsRatio(r, completed, total)
  {
    if total > 0 then
      var r := completed as real / total as real;
      assert r * total as real == completed as real;
      r
    else 0.0
  }

  /** `progressPercentage`: completed items over list products, 0 for a list without products. */
  function Progress(products: seq<Product>, items: seq<ShoppingListItem>, listId: string): (r: real)
    ensures r >= 0.0
    ensures |ListProducts(products, items, listId)| == 0 ==> r == 0.0
    ensures |ListProducts(products, items, listId)| > 0 ==>
      (r <= 1.0 <==> CompletedItems(items, listId) <= |ListProducts(products, items, listId)|)
    ensures IsRatio(r, CompletedItems(items, listId), |ListProducts(products, items, listId)|)
  {
    var total := |ListProducts(products, items, listId)|;
    var completed := CompletedItems(items, listId);
    Ratio(completed, total)
  }

  /** Every item of the list points at a product that exists. */
  predicate ItemsResolve(products: seq<Product>, items: seq<ShoppingListItem>, listId: string) {
    forall k :: 0 <= k < |items| && items[k].shoppingListId == listId ==>
      !ProductContext.IdFresh(products, items[k].productId)
  }

  /**
    Progress stays within 1 when the relation has one item per pair and every
    item of the list resolves to a product.
   */
  lemma ProgressAtMostOne(products: seq<Product>, items: seq<ShoppingListItem>, listId: string)
    requires PairsUnique(items) && ItemsResolve(products, items, listId)
    ensures Progress(products, items, listId) <= 1.0
  {
    ListItemsAtMostListProducts(products, items, listId);
  }

  /** Under the same conditions the list has no more items than resolving products. */
  lemma ListItemsAtMostListProducts(products: seq<Product>, items: seq<ShoppingListItem>, listId: string)
    requires PairsUnique(items) && ItemsResolve(products, items, listId)
    ensures |GetListItems(items, listId)| <= |ListProducts(products, items, listId)|
  {
    var own := GetListItems(items, listId);
    var listProducts := ListProducts(products, items, listId);
    var ownIds := Image(own, (item: ShoppingListItem) => item.productId);
    var productIds := Image(listProducts, (p: Product) => p.id);
    OwnProductIdsDistinct(items, listId);
    ImageSize(own, (item: ShoppingListItem) => item.productId);
    ImageSize(listProducts, (p: Product) => p.id);
    forall id | id in ownIds ensures id in productIds {
      var k :| 0 <= k < |own| && own[k].productId == id;
      ResolvedIsListed(products, items, listId, own[k]);
    }
    SubsetSize(ownIds, productIds);
  }

  /** With one item per pair, the items of one list point at distinct products. */
  lemma OwnProductIdsDistinct(items: seq<ShoppingListItem>, listId: string)
    requires PairsUnique(items)
    ensures var own := GetListItems(items, listId);
      forall i, j :: 0 <= i < j < |own| ==> own[i].productId != own[j].productId
  {
    var own := GetListItems(items, listId);
    SubsequenceKeepsPairsUnique(own, items);
    forall i, j | 0 <= i < j < |own| ensures own[i].productId != own[j].productId {
      assert !IsPair(own[j], own[i].shoppingListId, own[i].productId);
    }
  }

  /** The product an item of the list points at is one of the list's products. */
  lemma ResolvedIsListed(products: seq<Product>, items: seq<ShoppingListItem>, listId: string, item: ShoppingListItem)
    requires ItemsResolve(products, items, listId)
    requires item in GetListItems(items, listId)
    ensures item.productId in Image(ListProducts(products, items, listId), (p: Product) => p.id)
  {
    var own := GetListItems(items, listId);
    var listProducts := ListProducts(products, items, listId);
    var i :| 0 <= i < |own| && own[i] == item;
    assert item.shoppingListId == listId && item in items;
    var m :| 0 <= m < |items| && items[m] == item;
    assert IsPair(items[m], listId, item.productId);
    var j :| 0 <= j < |products| && products[j].id == item.productId;
    assert HasPair(items, listId, products[j].id);
    var n :| 0 <= n < |listProducts| && listProducts[n] == products[j];
    ImageHas(listProducts, (p: Product) => p.id, n);
  }

  /**
    Orphaned items push progress past 1: one product on the list, plus a
    checked item whose product no longer exists, reads as 2.
   */
  lemma ProgressCanExceedOne(p: Product, listId: string, orphanId: string)
    requires p.id != orphanId
    ensures var items := [
        ShoppingListItem("i1", p.id, listId, true, 0),
        ShoppingListItem("i2", orphanId, listId, true, 0)];
      Progress([p], items, listId) == 2.0
  {
    var items := [
      ShoppingListItem("i1", p.id, listId, true, 0),
      ShoppingListItem("i2", orphanId, listId, true, 0)];
    assert IsPair(items[0], listId, p.id);
    assert ListProducts([p], items, listId) == [p];
    assert Count(items, (item: ShoppingListItem) => item.shoppingListId == listId && item.isChecked) == 2;
  }

  /** A rendered section: bucket key, heading and products. */
  datatype Section = Section(categoryId: string, title: string, data: seq<Product>)

  /** A section's heading: the catalog name of its category, or "Uncategorized" when unknown or unnamed. */
  function SectionTitle(catalog: seq<Category>, categoryId: string): (title: string)
    ensures CategoryHelper.GetCategoryById(catalog, categoryId).None? ==> title == "Uncategorized"
    ensures CategoryHelper.GetCategoryById(catalog, categoryId).Some? ==>
      var name := CategoryHelper.GetCategoryById(catalog, categoryId).value.name;
      title == (if name != "" then name else "Uncategorized")
  {
    match CategoryHelper.GetCategoryById(catalog, categoryId)
    case Some(c) => if c.name != "" then c.name else "Uncategorized"
    case None => "Uncategorized"
  }

  /**
    `sections` over the list's products: one section per category in
    first-occurrence order, each holding exactly that category's products and
    titled from the catalog; every product lands in a section.
   */
  function Sections(listProducts: seq<Product>, catalog: seq<Category>): (r: seq<Section>)
    ensures forall i, j :: 0 <= i < j < |r| ==> r[i].categoryId != r[j].categoryId
    ensures forall i :: 0 <= i < |r| ==> r[i].data == WithKey(listProducts, r[i].categoryId) && |r[i].data| > 0
    ensures forall i :: 0 <= i < |r| ==> r[i].title == SectionTitle(catalog, r[i].categoryId)
    ensures forall k :: 0 <= k < |listProducts| ==> GroupKey(listProducts[k]) in SectionIds(r)
    ensures forall i, j :: 0 <= i < j < |r| ==>
      FirstIndex(listProducts, r[i].categoryId) < FirstIndex(listProducts, r[j].categoryId)
  {
    var groups := GroupByCategory(listProducts);
    GroupByCategoryShape(listProducts);
    var r := seq(|groups|, i requires 0 <= i < |groups| =>
      Section(groups[i].key, SectionTitle(catalog, groups[i].key), groups[i].products));
    assert forall i :: 0 <= i < |r| ==> SectionIds(r)[i] == groups[i].key;
    r
  }

  function SectionIds(sections: seq<Section>): (ids: seq<string>)
    ensures |ids| == |sections|
    ensures forall i :: 0 <= i < |sections| ==> ids[i] == sections[i].categoryId
  {
    seq(|sections|, i requires 0 <= i < |sections| => sections[i].categoryId)
  }

  /** `filteredAvailableProducts`: available products whose name contains the search text, ignoring case. */
  function FilteredAvailable(products: seq<Product>, items: seq<ShoppingListItem>, listId: string, searchText: string)
    : (r: seq<Product>)
    ensures forall k :: 0 <= k < |r| ==>
      r[k] in products && !HasPair(items, listId, r[k].id) && MatchesSearch(r[k].name, searchText)
    ensures forall k :: 0 <= k < |products| ==>
      !HasPair(items, listId, products[k].id) && MatchesSearch(products[k].name, searchText) ==> products[k] in r
    ensures IsSubsequence(r, products)
    ensures |r| == Count(AvailableProducts(products, items, listId), (p: Product) => MatchesSearch(p.name, searchText))
  {
    var available := AvailableProducts(products, items, listId);
    var r := Filter(available, (p: Product) => MatchesSearch(p.name, searchText));
    SubsequenceTrans(r, available, products);
    CountIsFilterLength(available, (p: Product) => MatchesSearch(p.name, searchText));
    r
  }

  /** An empty search offers every available product. */
  lemma EmptySearchOffersAll(products: seq<Product>, items: seq<ShoppingListItem>, listId: string)
    ensures FilteredAvailable(products, items, listId, "") == AvailableProducts(products, items, listId)
  {
    var available := AvailableProducts(products, items, listId);
    forall k | 0 <= k < |available| ensures MatchesSearch(available[k].name, "") {
      EmptySearchMatches(available[k].name);
    }
  }

  /** `isChecked`: some item of this list for the product is checked. */
  function IsChecked(items: seq<ShoppingListItem>, listId: string, productId: string): (b: bool)
    ensures b <==> exists k :: 0 <= k < |items| && IsPair(items[k], listId, productId) && items[k].isChecked
  {
    Exists(items, (item: ShoppingListItem) => IsPair(item, listId, productId) && item.isChecked)
  }

  /**
    The screen's `some` agrees with the store's `find`-based `isProductChecked`
    whenever the relation has one item per pair.
   */
  lemma IsCheckedAgreesWithStore(items: seq<ShoppingListItem>, listId: string, productId: string)
    requires PairsUnique(items)
    ensures IsChecked(items, listId, productId) == IsProductChecked(items, listId, productId)
  {
    if IsChecked(items, listId, productId) {
      var k :| 0 <= k < |items| && IsPair(items[k], listId, productId) && items[k].isChecked;
      var first := FindFirst(items, (item: ShoppingListItem) => IsPair(item, listId, productId));
      var m :| 0 <= m < |items| && items[m] == first.value &&
        forall j :: 0 <= j < m ==> !IsPair(items[j], listId, productId);
      assert IsPair(items[m], listId, productId);
    }
  }
}
