/**
  The derived view of the store overview (src/screens/StoresScreen.tsx): the
  name-or-address search and the store-type filter.
 */
module StoresScreen {
  import opened Seqs
  import opened Types
  import opened Text

  /** A store matches when its name, or its address if it has one, contains the search text, ignoring case. */
  predicate MatchesStoreSearch(s: Store, searchText: string) {
    MatchesSearch(s.name, searchText) ||
    (s.location.address.Some? && MatchesSearch(s.location.address.value, searchText))
  }

  /** `!selectedType || store.type === selectedType`. */
  predicate MatchesType(s: Store, selected: Option<StoreType>) {
    selected.None? || s.storeType == selected.value
  }

  /** `filteredStores`: the stores matching the search and the type filter, in stored order. */
  function FilteredStores(stores: seq<Store>, searchText: string, selected: Option<StoreType>): (r: seq<Store>)
    ensures forall k :: 0 <= k < |r| ==>
      r[k] in stores && MatchesStoreSearch(r[k], searchText) && MatchesType(r[k], selected)
    ensures forall k :: 0 <= k < |stores| ==>
      (MatchesStoreSearch(stores[k], searchText) && MatchesType(stores[k], selected) ==> stores[k] in r)
    ensures IsSubsequence(r, stores)
    ensures selected.Some? ==> forall k :: 0 <= k < |r| ==> r[k].storeType == selected.value
    ensures |r| == Count(stores, (s: Store) => MatchesStoreSearch(s, searchText) && MatchesType(s, selected))
  {
    CountIsFilterLength(stores, (s: Store) => MatchesStoreSearch(s, searchText) && MatchesType(s, selected));
    Filter(stores, (s: Store) => MatchesStoreSearch(s, searchText) && MatchesType(s, selected))
  }

  /** An empty search with no type selected keeps every store. */
  lemma NoFilterKeepsAll(stores: seq<Store>)
    ensures FilteredStores(stores, "", None) == stores
  {
    forall k | 0 <= k < |stores| ensures MatchesStoreSearch(stores[k], "") {
      EmptySearchMatches(stores[k].name);
    }
  }

  /** A store whose name misses the search is still found through its address. */
  lemma AddressAloneCanMatch(stores: seq<Store>, searchText: string, k: nat)
    requires k < |stores| && stores[k].location.address.Some?
    requires MatchesSearch(stores[k].location.address.value, searchText)
    ensures stores[k] in FilteredStores(stores, searchText, None)
  {
  }
}
