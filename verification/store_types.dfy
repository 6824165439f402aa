/**
  The static per-store-type defaults (src/constants/storeTypes.ts): the
  ordered category ids a new store starts with, plus its icon and colour.
 */
module StoreTypes {
  import opened Seqs
  import opened Types

  datatype TypeDefaults = TypeDefaults(categoryIds: seq<string>, icon: string, color: string)

  /** `STORE_TYPE_DEFAULTS[t]`: every store type has an entry, with a non-empty, duplicate-free order. */
  function StoreTypeDefaults(t: StoreType): (d: TypeDefaults)
    ensures |d.categoryIds| > 0
    ensures NoDuplicates(d.categoryIds)
  {
    match t
    case Grocery => TypeDefaults(
      ["produce", "dairy", "meat", "bakery", "beverages", "frozen", "pantry", "snacks"], "cart", "#34C759")
    case Pharmacy => TypeDefaults(
      ["personal-care", "medicine", "vitamins", "first-aid", "beauty"], "medkit", "#FF3B30")
    case Hardware => TypeDefaults(
      ["tools", "hardware", "paint", "electrical", "plumbing", "garden"], "hammer", "#FF9500")
    case Hypermarket => TypeDefaults(
      ["beverages", "snacks", "dairy", "bakery", "personal-care"], "storefront", "#007AFF")
  }

  /** The default aisle order of a store type. */
  function DefaultCategoryIds(t: StoreType): seq<string> {
    StoreTypeDefaults(t).categoryIds
  }

  /** A Hypermarket's default categories are all drawn from the Grocery and Pharmacy defaults. */
  lemma HypermarketDrawsFromGroceryAndPharmacy()
    ensures forall id :: id in DefaultCategoryIds(Hypermarket) ==>
      id in DefaultCategoryIds(Grocery) || id in DefaultCategoryIds(Pharmacy)
  {
    var g := DefaultCategoryIds(Grocery);
    var p := DefaultCategoryIds(Pharmacy);
    assert g[4] == "beverages" && g[7] == "snacks" && g[1] == "dairy" && g[3] == "bakery";
    assert p[0] == "personal-care";
  }

  /** The four store types have pairwise different icons and colours. */
  lemma DefaultsVisuallyDistinct(s: StoreType, t: StoreType)
    requires s != t
    ensures StoreTypeDefaults(s).icon != StoreTypeDefaults(t).icon
    ensures StoreTypeDefaults(s).color != StoreTypeDefaults(t).color
  {
  }
}
