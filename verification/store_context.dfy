/**
  The retail-store store (src/context/StoreContext.tsx). A new store's
  `categoryOrder` is seeded from the store type's default; `seq` is a value
  type, so every store holds its own order and reordering one store can never
  alter another store or the static default.
 */
module StoreContext {
  import opened Seqs
  import opened Types
  import opened StoreTypes

  /** The fields an update may supply (`Partial<Omit<Store, 'id'>>`). */
  datatype StoreUpdate = StoreUpdate(
    name: Option<string>,
    storeType: Option<StoreType>,
    location: Option<StoreLocation>,
    categoryOrder: Option<seq<string>>)

  predicate UniqueIds(stores: seq<Store>) {
    forall i, j :: 0 <= i < j < |stores| ==> stores[i].id != stores[j].id
  }

  predicate IdFresh(stores: seq<Store>, id: string) {
    forall i :: 0 <= i < |stores| ==> stores[i].id != id
  }

  /** `addStore`: appends one store whose aisle order is its type's default. */
  function AddStore(stores: seq<Store>, newId: string, name: string, storeType: StoreType, location: StoreLocation)
    : (r: (seq<Store>, Store))
    requires IdFresh(stores, newId)
    ensures r.0 == stores + [r.1]
    ensures r.1.id == newId && r.1.name == name && r.1.storeType == storeType && r.1.location == location
    ensures r.1.categoryOrder == StoreTypeDefaults(storeType).categoryIds
    ensures UniqueIds(stores) ==> UniqueIds(r.0)
  {
    var s := Store(newId, name, storeType, location, DefaultCategoryIds(storeType));
    (stores + [s], s)
  }

  /** `{ ...store, ...updates }`: stores carry no timestamp. */
  function ApplyUpdate(s: Store, updates: StoreUpdate): (t: Store)
    ensures t.id == s.id
    ensures t.name == updates.name.GetOr(s.name)
    ensures t.storeType == updates.storeType.GetOr(s.storeType)
    ensures t.location == updates.location.GetOr(s.location)
    ensures t.categoryOrder == updates.categoryOrder.GetOr(s.categoryOrder)
  {
    s.(name := updates.name.GetOr(s.name),
       storeType := updates.storeType.GetOr(s.storeType),
       location := updates.location.GetOr(s.location),
       categoryOrder := updates.categoryOrder.GetOr(s.categoryOrder))
  }

  /** `updateStore`: only the stores with the id change. */
  function UpdateStore(stores: seq<Store>, id: string, updates: StoreUpdate): (r: seq<Store>)
    ensures |r| == |stores|
    ensures forall k :: 0 <= k < |r| ==> r[k].id == stores[k].id
    ensures forall k :: 0 <= k < |r| && stores[k].id != id ==> r[k] == stores[k]
    ensures forall k :: 0 <= k < |r| && stores[k].id == id ==> r[k] == ApplyUpdate(stores[k], updates)
    ensures IdFresh(stores, id) ==> r == stores
    ensures UniqueIds(stores) ==> UniqueIds(r)
  {
    seq(|stores|, k requires 0 <= k < |stores| =>
      if stores[k].id == id then ApplyUpdate(stores[k], updates) else stores[k])
  }

  /** `deleteStore`: removes every store with the id, keeps the rest in order. */
  function DeleteStore(stores: seq<Store>, id: string): (r: seq<Store>)
    ensures forall k :: 0 <= k < |r| ==> r[k].id != id && r[k] in stores
    ensures forall k :: 0 <= k < |stores| && stores[k].id != id ==> stores[k] in r
    ensures IsSubsequence(r, stores)
    ensures IdFresh(stores, id) ==> r == stores
    ensures |r| == Count(stores, (s: Store) => s.id != id)
  {
    CountIsFilterLength(stores, (s: Store) => s.id != id);
    Filter(stores, (s: Store) => s.id != id)
  }

  /**
    `reorderStoreCategories`: the matching stores get `newOrder` verbatim (no
    permutation check, duplicates and unknown ids accepted); every other field
    and every other store is unchanged.
   */
  function ReorderStoreCategories(stores: seq<Store>, storeId: string, newOrder: seq<string>): (r: seq<Store>)
    ensures |r| == |stores|
    ensures forall k :: 0 <= k < |r| && stores[k].id == storeId ==>
      r[k].categoryOrder == newOrder &&
      r[k].id == stores[k].id && r[k].name == stores[k].name &&
      r[k].storeType == stores[k].storeType && r[k].location == stores[k].location
    ensures forall k :: 0 <= k < |r| && stores[k].id != storeId ==> r[k] == stores[k]
  {
    seq(|stores|, k requires 0 <= k < |stores| =>
      if stores[k].id == storeId then stores[k].(categoryOrder := newOrder) else stores[k])
  }

  /** `getStoreById`: the first store with the id. */
  function GetStoreById(stores: seq<Store>, id: string): (r: Option<Store>)
    ensures r.None? <==> IdFresh(stores, id)
    ensures r.Some? ==> r.value.id == id && r.value in stores
    ensures r.Some? ==> exists k ::
      0 <= k < |stores| && stores[k] == r.value && forall j :: 0 <= j < k ==> stores[j].id != id
  {
    FindFirst(stores, (s: Store) => s.id == id)
  }

  /** Reordering is exactly an update that supplies only the order. */
  lemma ReorderIsOrderOnlyUpdate(stores: seq<Store>, storeId: string, newOrder: seq<string>)
    ensures ReorderStoreCategories(stores, storeId, newOrder) ==
      UpdateStore(stores, storeId, StoreUpdate(None, None, None, Some(newOrder)))
  {
  }

  /**
    No aliasing of the shared default: two stores of one type are added, one is
    reordered, and the other still has the type's default order.
   */
  lemma ReorderDoesNotAlias(
    stores: seq<Store>, idA: string, idB: string, storeType: StoreType,
    location: StoreLocation, newOrder: seq<string>)
    requires IdFresh(stores, idA) && IdFresh(stores, idB) && idA != idB
    ensures var s1 := AddStore(stores, idA, "A", storeType, location).0;
      var s2 := AddStore(s1, idB, "B", storeType, location).0;
      var s3 := ReorderStoreCategories(s2, idA, newOrder);
      && GetStoreById(s3, idB).Some?
      && GetStoreById(s3, idB).value.categoryOrder == DefaultCategoryIds(storeType)
      && GetStoreById(s3, idA).Some?
      && GetStoreById(s3, idA).value.categoryOrder == newOrder
  {
    var s1 := AddStore(stores, idA, "A", storeType, location).0;
    var s2 := AddStore(s1, idB, "B", storeType, location).0;
    var s3 := ReorderStoreCategories(s2, idA, newOrder);
    var n := |stores|;
    assert s2[n].id == idA && s2[n + 1].id == idB;
    assert s3[n].categoryOrder == newOrder && s3[n + 1] == s2[n + 1];
    forall j | 0 <= j < n ensures s3[j].id != idA && s3[j].id != idB {
      assert s3[j] == stores[j];
    }
    GetFirstMatch(s3, n);
    GetFirstMatch(s3, n + 1);
  }

  /** The store at `k` is the one found for its id when no earlier store has that id. */
  lemma GetFirstMatch(stores: seq<Store>, k: nat)
    requires k < |stores| && forall j :: 0 <= j < k ==> stores[j].id != stores[k].id
    ensures GetStoreById(stores, stores[k].id) == Some(stores[k])
  {
    var r := GetStoreById(stores, stores[k].id);
    var i :| 0 <= i < |stores| && stores[i] == r.value && forall j :: 0 <= j < i ==> stores[j].id != stores[k].id;
    assert !(i < k) && !(k < i);
  }

  /** After a delete the id is gone. */
  lemma DeleteThenGet(stores: seq<Store>, id: string)
    ensures GetStoreById(DeleteStore(stores, id), id).None?
  {
  }
}
