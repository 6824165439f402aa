/**
  The derived views of one store (src/screens/StoreDetailScreen.tsx): the
  products the store stocks, the aisle sections in the store's category order,
  and how many of the stocked products are checked on some list.
 */
module StoreDetailScreen {
  import opened Seqs
  import opened Types
  import CategoryHelper

  /** A product is stocked when it has a non-empty category that the store's order lists. */
  predicate Stocked(p: Product, categoryOrder: seq<string>) {
    p.categoryId.Some? && p.categoryId.value != "" && p.categoryId.value in categoryOrder
  }

  /** `storeProducts`: the stocked products, in product order. */
  function StoreProducts(products: seq<Product>, categoryOrder: seq<string>): (r: seq<Product>)
    ensures forall k :: 0 <= k < |r| ==> r[k] in products && Stocked(r[k], categoryOrder)
    ensures forall k :: 0 <= k < |products| && Stocked(products[k], categoryOrder) ==> products[k] in r
    ensures IsSubsequence(r, products)
    ensures |r| == Count(products, (p: Product) => Stocked(p, categoryOrder))
  {
    CountIsFilterLength(products, (p: Product) => Stocked(p, categoryOrder));
    Filter(products, (p: Product) => Stocked(p, categoryOrder))
  }

  /** A section of the store layout. */
  datatype StoreSection = StoreSection(categoryId: string, title: string, data: seq<Product>)

  /** `categoryProducts`: the stocked products of one category. */
  function CategoryProducts(storeProducts: seq<Product>, categoryId: string): seq<Product> {
    Filter(storeProducts, (p: Product) => p.categoryId == Some(categoryId))
  }

  /** The category ids of the sections, in order. */
  function SectionIds(sections: seq<StoreSection>): (ids: seq<string>)
    ensures |ids| == |sections|
    ensures forall i :: 0 <= i < |sections| ==> ids[i] == sections[i].categoryId
  {
    seq(|sections|, i requires 0 <= i < |sections| => sections[i].categoryId)
  }

  /** A section titled with the catalog name of its category and holding that category's stocked products. */
  predicate DrawnFor(catalog: seq<Category>, storeProducts: seq<Product>, section: StoreSection) {
    && CategoryHelper.GetCategoryById(catalog, section.categoryId).Some?
    && section.title == CategoryHelper.GetCategoryById(catalog, section.categoryId).value.name
    && section.data == CategoryProducts(storeProducts, section.categoryId)
    && |section.data| > 0
  }

  /** A category that gets a section: known to the catalog and with stocked products. */
  predicate Shown(catalog: seq<Category>, storeProducts: seq<Product>, id: string) {
    CategoryHelper.GetCategoryById(catalog, id).Some? && |CategoryProducts(storeProducts, id)| > 0
  }

  /**
    `sections`: one section per entry of the store's order, in that order,
    skipping ids the catalog does not know and categories without stocked
    products; each section is titled with the catalog name and holds that
    category's stocked products.
   */
  function StoreSections(catalog: seq<Category>, storeProducts: seq<Product>, categoryOrder: seq<string>)
    : (r: seq<StoreSection>)
    ensures forall i :: 0 <= i < |r| ==> DrawnFor(catalog, storeProducts, r[i])
  {
    if |categoryOrder| == 0 then []
    else
      var id := categoryOrder[0];
      var rest := StoreSections(catalog, storeProducts, categoryOrder[1..]);
      if !Shown(catalog, storeProducts, id) then rest
      else
        [StoreSection(id, CategoryHelper.GetCategoryById(catalog, id).value.name, CategoryProducts(storeProducts, id))] + rest
  }

  /**
    The sections follow the store's order, and every category of the order
    that the catalog knows and that has stocked products gets one, once per
    entry of the order: the section ids are exactly the shown entries of the
    order, repeats included.
   */
  lemma {:induction false} SectionsFollowOrder(catalog: seq<Category>, storeProducts: seq<Product>, categoryOrder: seq<string>)
    ensures var r := StoreSections(catalog, storeProducts, categoryOrder);
      IsSubsequence(SectionIds(r), categoryOrder)
    ensures var r := StoreSections(catalog, storeProducts, categoryOrder);
      forall k :: 0 <= k < |categoryOrder| && Shown(catalog, storeProducts, categoryOrder[k]) ==>
      categoryOrder[k] in SectionIds(r)
    ensures SectionIds(StoreSections(catalog, storeProducts, categoryOrder)) ==
      Filter(categoryOrder, (id: string) => Shown(catalog, storeProducts, id))
  {
    SectionIdsAreShownEntries(catalog, storeProducts, categoryOrder);
    if |categoryOrder| > 0 {
      var id := categoryOrder[0];
      var tail := categoryOrder[1..];
      SectionsFollowOrder(catalog, storeProducts, tail);
      var rest := StoreSections(catalog, storeProducts, tail);
      var r := StoreSections(catalog, storeProducts, categoryOrder);
      forall k | 0 < k < |categoryOrder| ensures categoryOrder[k] == tail[k - 1] { }
      if Shown(catalog, storeProducts, id) {
        assert SectionIds(r) == [id] + SectionIds(rest);
        assert SectionIds(r)[1..] == SectionIds(rest);
      } else {
        assert r == rest;
      }
    }
  }

  /** The section ids are the order filtered by `Shown`. */
  lemma {:induction false} SectionIdsAreShownEntries(catalog: seq<Category>, storeProducts: seq<Product>, categoryOrder: seq<string>)
    ensures SectionIds(StoreSections(catalog, storeProducts, categoryOrder)) ==
      Filter(categoryOrder, (id: string) => Shown(catalog, storeProducts, id))
  {
    if |categoryOrder| > 0 {
      SectionIdsAreShownEntries(catalog, storeProducts, categoryOrder[1..]);
      SectionIdsStep(catalog, storeProducts, categoryOrder);
    }
  }

  /** One step of the order: its first id adds a section exactly when it is shown. */
  lemma SectionIdsStep(catalog: seq<Category>, storeProducts: seq<Product>, categoryOrder: seq<string>)
    requires |categoryOrder| > 0
    ensures var rest := SectionIds(StoreSections(catalog, storeProducts, categoryOrder[1..]));
      SectionIds(StoreSections(catalog, storeProducts, categoryOrder)) ==
      if Shown(catalog, storeProducts, categoryOrder[0]) then [categoryOrder[0]] + rest else rest
  {
    var id := categoryOrder[0];
    var rest := StoreSections(catalog, storeProducts, categoryOrder[1..]);
    if Shown(catalog, storeProducts, id) {
      var section := StoreSection(id, CategoryHelper.GetCategoryById(catalog, id).value.name, CategoryProducts(storeProducts, id));
      assert StoreSections(catalog, storeProducts, categoryOrder) == [section] + rest;
      SectionIdsCons(section, rest);
    }
  }

  lemma SectionIdsCons(section: StoreSection, rest: seq<StoreSection>)
    ensures SectionIds([section] + rest) == [section.categoryId] + SectionIds(rest)
  {
    var ids := SectionIds([section] + rest);
    assert forall i :: 0 < i < |ids| ==> ids[i] == ([section] + rest)[i].categoryId == rest[i - 1].categoryId;
  }

  /** The number of products over all sections. */
  function SectionsSize(sections: seq<StoreSection>): nat {
    if |sections| == 0 then 0 else |sections[0].data| + SectionsSize(sections[1..])
  }

  /** A product a section for its category is drawn for: stocked by the order and known to the catalog. */
  predicate Placed(p: Product, catalog: seq<Category>, categoryOrder: seq<string>) {
    p.categoryId.Some? && p.categoryId.value in categoryOrder &&
    CategoryHelper.GetCategoryById(catalog, p.categoryId.value).Some?
  }

  /**
    With no repeated id in the order, the sections hold exactly the stocked
    products whose category the catalog knows, each once.
   */
  lemma {:induction false} SectionsSizeCountsPlaced(catalog: seq<Category>, storeProducts: seq<Product>, categoryOrder: seq<string>)
    requires NoDuplicates(categoryOrder)
    ensures SectionsSize(StoreSections(catalog, storeProducts, categoryOrder)) ==
      Count(storeProducts, (p: Product) => Placed(p, catalog, categoryOrder))
  {
    var all := (p: Product) => Placed(p, catalog, categoryOrder);
    if |categoryOrder| == 0 {
      assert Count(storeProducts, all) == 0;
    } else {
      var id := categoryOrder[0];
      var rest := categoryOrder[1..];
      SectionsSizeCountsPlaced(catalog, storeProducts, rest);
      var here := (p: Product) => p.categoryId == Some(id) && CategoryHelper.GetCategoryById(catalog, id).Some?;
      var later := (p: Product) => Placed(p, catalog, rest);
      assert categoryOrder == [id] + rest;
      PlacedSplits(catalog, storeProducts, categoryOrder);
      CountDisjointUnion(storeProducts, all, here, later);
      var data := (p: Product) => p.categoryId == Some(id);
      CountIsFilterLength(storeProducts, data);
      if CategoryHelper.GetCategoryById(catalog, id).Some? {
        FilterCongruentCount(storeProducts, here, data);
      } else {
        assert Count(storeProducts, here) == 0;
      }
    }
  }

  /**
    With no repeated id, a placed product is placed either by the first id of
    the order or by the rest of it, never by both.
   */
  lemma PlacedSplits(catalog: seq<Category>, storeProducts: seq<Product>, categoryOrder: seq<string>)
    requires NoDuplicates(categoryOrder) && |categoryOrder| > 0
    ensures var id := categoryOrder[0];
      forall k :: 0 <= k < |storeProducts| ==>
        var p := storeProducts[k];
        var here := p.categoryId == Some(id) && CategoryHelper.GetCategoryById(catalog, id).Some?;
        && (Placed(p, catalog, categoryOrder) <==> here || Placed(p, catalog, categoryOrder[1..]))
        && !(here && Placed(p, catalog, categoryOrder[1..]))
  {
    var id := categoryOrder[0];
    var rest := categoryOrder[1..];
    assert categoryOrder == [id] + rest;
    forall k | 0 <= k < |storeProducts| ensures !(storeProducts[k].categoryId == Some(id) && Placed(storeProducts[k], catalog, rest)) {
      if storeProducts[k].categoryId == Some(id) {
        assert forall j :: 0 <= j < |rest| ==> rest[j] == categoryOrder[j + 1];
      }
    }
  }

  /** Predicates that agree on a sequence count the same. */
  lemma {:induction false} FilterCongruentCount(s: seq<Product>, f: Product -> bool, g: Product -> bool)
    requires forall i :: 0 <= i < |s| ==> (f(s[i]) <==> g(s[i]))
    ensures Count(s, f) == Count(s, g)
  {
    CountMonotone(s, f, g);
    CountMonotone(s, g, f);
  }

  /**
    The sections hold at most every stocked product once when the order has
    no repeated id, and exactly every stocked product once when, in addition,
    the catalog knows every id of the order.
   */
  lemma SectionsSizeBound(catalog: seq<Category>, products: seq<Product>, categoryOrder: seq<string>)
    requires NoDuplicates(categoryOrder)
    ensures var storeProducts := StoreProducts(products, categoryOrder);
      SectionsSize(StoreSections(catalog, storeProducts, categoryOrder)) <= |storeProducts|
    ensures var storeProducts := StoreProducts(products, categoryOrder);
      (forall k :: 0 <= k < |categoryOrder| ==> CategoryHelper.GetCategoryById(catalog, categoryOrder[k]).Some?) ==>
      SectionsSize(StoreSections(catalog, storeProducts, categoryOrder)) == |storeProducts|
  {
    var storeProducts := StoreProducts(products, categoryOrder);
    SectionsSizeCountsPlaced(catalog, storeProducts, categoryOrder);
  }

  /**
    A repeated id in the order (which `reorderStoreCategories` accepts) repeats
    its section, so the sections then hold a product twice.
   */
  lemma RepeatedIdRepeatsSection(c: Category, p: Product)
    requires p.categoryId == Some(c.id) && c.id != ""
    ensures var order := [c.id, c.id];
      var sections := StoreSections([c], StoreProducts([p], order), order);
      |sections| == 2 && sections[0] == sections[1] &&
      SectionsSize(sections) == 2 > |StoreProducts([p], order)|
  {
    var order := [c.id, c.id];
    assert Stocked(p, order);
    assert StoreProducts([p], order) == [p];
    assert CategoryProducts([p], c.id) == [p];
    assert CategoryHelper.GetCategoryById([c], c.id) == Some(c);
    var section := StoreSection(c.id, c.name, [p]);
    assert order[1..] == [c.id] && order[1..][1..] == [];
    assert StoreSections([c], [p], order[1..]) == [section];
    assert StoreSections([c], [p], order) == [section, section];
    assert [section, section][1..] == [section];
    assert SectionsSize([section]) == 1;
  }

  /** `checkedProductIds`: the products some list has checked. */
  function CheckedProductIds(items: seq<ShoppingListItem>): (ids: set<string>)
    ensures forall id :: id in ids <==> exists k :: 0 <= k < |items| && items[k].productId == id && items[k].isChecked
  {
    set k | 0 <= k < |items| && items[k].isChecked :: items[k].productId
  }

  /** `checkedCount`: the stocked products checked on some list; never more than the stocked products. */
  function CheckedCount(storeProducts: seq<Product>, items: seq<ShoppingListItem>): (n: nat)
    ensures n <= |storeProducts|
    ensures n == Count(storeProducts, (p: Product) => p.id in CheckedProductIds(items))
  {
    var ids := CheckedProductIds(items);
    CountIsFilterLength(storeProducts, (p: Product) => p.id in CheckedProductIds(items));
    FilterCongruent(storeProducts, (p: Product) => p.id in ids, (p: Product) => p.id in CheckedProductIds(items));
    |Filter(storeProducts, (p: Product) => p.id in ids)|
  }
}
