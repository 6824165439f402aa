/**
  The shopping-list store and the list/product membership relation
  (src/context/ListContext.tsx). The two collections live side by side in
  `ListState`; each operation is one atomic step from state to state.
 */
module ListContext {
  import opened Seqs
  import opened Types

  datatype ListState = ListState(lists: seq<ShoppingList>, listItems: seq<ShoppingListItem>)

  /**
    The fields `updateList` accepts: everything but `id` and `createdAt`, each
    optional. A supplied `updatedAt` is overridden by the update's own stamp.
   */
  datatype ListUpdate = ListUpdate(name: Option<string>, updatedAt: Option<Timestamp>)

  /** The item links this list and this product. */
  predicate IsPair(item: ShoppingListItem, listId: string, productId: string) {
    item.shoppingListId == listId && item.productId == productId
  }

  /** Some item links this list and this product (the `exists` check of `addProductToList`). */
  predicate HasPair(items: seq<ShoppingListItem>, listId: string, productId: string) {
    exists k :: 0 <= k < |items| && IsPair(items[k], listId, productId)
  }

  /** The relation invariant: at most one item per (list, product) pair. */
  predicate PairsUnique(items: seq<ShoppingListItem>) {
    forall i, j :: 0 <= i < j < |items| ==>
      !IsPair(items[j], items[i].shoppingListId, items[i].productId)
  }

  predicate ListIdFresh(lists: seq<ShoppingList>, id: string) {
    forall k :: 0 <= k < |lists| ==> lists[k].id != id
  }

  predicate ItemIdFresh(items: seq<ShoppingListItem>, id: string) {
    forall k :: 0 <= k < |items| ==> items[k].id != id
  }

  /**
    Sets `updatedAt` of the lists with the id to `now` (the timestamp bump of
    every membership change); every other field and list is unchanged.
   */
  function TouchList(lists: seq<ShoppingList>, listId: string, now: Timestamp): (r: seq<ShoppingList>)
    ensures |r| == |lists|
    ensures forall k :: 0 <= k < |r| && lists[k].id == listId ==>
      r[k].updatedAt == now && r[k].id == lists[k].id && r[k].name == lists[k].name &&
      r[k].createdAt == lists[k].createdAt
    ensures forall k :: 0 <= k < |r| && lists[k].id != listId ==> r[k] == lists[k]
  {
    seq(|lists|, k requires 0 <= k < |lists| =>
      if lists[k].id == listId then lists[k].(updatedAt := now) else lists[k])
  }

  /** `addList`: appends a new list created and updated at `now`. */
  function AddList(state: ListState, newId: string, name: string, now: Timestamp): (r: (ListState, ShoppingList))
    requires ListIdFresh(state.lists, newId)
    ensures r.0.lists == state.lists + [r.1]
    ensures r.0.listItems == state.listItems
    ensures r.1.id == newId && r.1.name == name && r.1.createdAt == r.1.updatedAt == now
  {
    var list := ShoppingList(newId, name, now, now);
    (ListState(state.lists + [list], state.listItems), list)
  }

  /**
    `updateList`: the lists with the id get the new name (if any) and
    `updatedAt == now`, whatever timestamp the updates carry; id and
    `createdAt` are kept.
   */
  function UpdateList(state: ListState, id: string, updates: ListUpdate, now: Timestamp): (r: ListState)
    ensures r.listItems == state.listItems
    ensures |r.lists| == |state.lists|
    ensures forall k :: 0 <= k < |r.lists| && state.lists[k].id == id ==>
      r.lists[k] == ShoppingList(id, updates.name.GetOr(state.lists[k].name), state.lists[k].createdAt, now)
    ensures forall k :: 0 <= k < |r.lists| && state.lists[k].id != id ==> r.lists[k] == state.lists[k]
    ensures ListIdFresh(state.lists, id) ==> r == state
  {
    var lists := seq(|state.lists|, k requires 0 <= k < |state.lists| =>
      var l := state.lists[k];
      if l.id == id then l.(name := updates.name.GetOr(l.name), updatedAt := now) else l);
    ListState(lists, state.listItems)
  }

  /** `deleteList`: removes the list and cascades to exactly its items. */
  function DeleteList(state: ListState, id: string): (r: ListState)
    ensures forall k :: 0 <= k < |r.lists| ==> r.lists[k].id != id && r.lists[k] in state.lists
    ensures forall k :: 0 <= k < |state.lists| && state.lists[k].id != id ==> state.lists[k] in r.lists
    ensures forall k :: 0 <= k < |r.listItems| ==>
      r.listItems[k].shoppingListId != id && r.listItems[k] in state.listItems
    ensures forall k :: 0 <= k < |state.listItems| && state.listItems[k].shoppingListId != id ==>
      state.listItems[k] in r.listItems
    ensures IsSubsequence(r.lists, state.lists) && IsSubsequence(r.listItems, state.listItems)
    ensures |r.lists| == Count(state.lists, (l: ShoppingList) => l.id != id)
    ensures |r.listItems| == Count(state.listItems, (item: ShoppingListItem) => item.shoppingListId != id)
  {
    CountIsFilterLength(state.lists, (l: ShoppingList) => l.id != id);
    CountIsFilterLength(state.listItems, (item: ShoppingListItem) => item.shoppingListId != id);
    ListState(
      Filter(state.lists, (l: ShoppingList) => l.id != id),
      Filter(state.listItems, (item: ShoppingListItem) => item.shoppingListId != id))
  }

  /**
    `addProductToList`: refused (no item, nothing changes) when the pair is
    already present; otherwise appends one unchecked item and touches the list.
   */
  function AddProductToList(state: ListState, listId: string, productId: string, newItemId: string, now: Timestamp)
    : (r: (ListState, Option<ShoppingListItem>))
    requires ItemIdFresh(state.listItems, newItemId)
    ensures HasPair(state.listItems, listId, productId) ==> r.1.None? && r.0 == state
    ensures !HasPair(state.listItems, listId, productId) ==>
      && r.1 == Some(ShoppingListItem(newItemId, productId, listId, false, now))
      && r.0.listItems == state.listItems + [r.1.value]
      && r.0.lists == TouchList(state.lists, listId, now)
    ensures PairsUnique(state.listItems) ==> PairsUnique(r.0.listItems)
    ensures HasPair(r.0.listItems, listId, productId)
  {
    if HasPair(state.listItems, listId, productId) then (state, None)
    else
      var item := ShoppingListItem(newItemId, productId, listId, false, now);
      assert IsPair(item, listId, productId);
      assert (state.listItems + [item])[|state.listItems|] == item;
      (ListState(TouchList(state.lists, listId, now), state.listItems + [item]), Some(item))
  }

  /**
    `removeProductFromList`: drops every item of the pair, keeps the other
    items in order, and touches the list whether or not anything was removed.
   */
  function RemoveProductFromList(state: ListState, listId: string, productId: string, now: Timestamp): (r: ListState)
    ensures !HasPair(r.listItems, listId, productId)
    ensures forall k :: 0 <= k < |r.listItems| ==> r.listItems[k] in state.listItems
    ensures forall k :: 0 <= k < |state.listItems| && !IsPair(state.listItems[k], listId, productId) ==>
      state.listItems[k] in r.listItems
    ensures IsSubsequence(r.listItems, state.listItems)
    ensures |r.listItems| == Count(state.listItems, (item: ShoppingListItem) => !IsPair(item, listId, productId))
    ensures r.lists == TouchList(state.lists, listId, now)
  {
    CountIsFilterLength(state.listItems, (item: ShoppingListItem) => !IsPair(item, listId, productId));
    var kept := Filter(state.listItems, (item: ShoppingListItem) => !IsPair(item, listId, productId));
    ListState(TouchList(state.lists, listId, now), kept)
  }

  /** The item with its checked flag flipped when it belongs to the pair. */
  function Flip(item: ShoppingListItem, listId: string, productId: string): ShoppingListItem {
    if IsPair(item, listId, productId) then item.(isChecked := !item.isChecked) else item
  }

  /**
    `toggleProductChecked`: flips `isChecked` on the items of the pair, changes
    nothing else about any item, and touches the list.
   */
  function ToggleProductChecked(state: ListState, listId: string, productId: string, now: Timestamp): (r: ListState)
    ensures |r.listItems| == |state.listItems|
    ensures forall k :: 0 <= k < |r.listItems| ==>
      var before := state.listItems[k];
      var after := r.listItems[k];
      && after.id == before.id && after.productId == before.productId
      && after.shoppingListId == before.shoppingListId && after.addedAt == before.addedAt
      && (after.isChecked <==> (if IsPair(before, listId, productId) then !before.isChecked else before.isChecked))
    ensures r.lists == TouchList(state.lists, listId, now)
    ensures PairsUnique(state.listItems) ==> PairsUnique(r.listItems)
  {
    var items := seq(|state.listItems|, k requires 0 <= k < |state.listItems| =>
      Flip(state.listItems[k], listId, productId));
    ListState(TouchList(state.lists, listId, now), items)
  }

  /** `items[k]` is the first item of the pair. */
  predicate FirstOfPair(items: seq<ShoppingListItem>, k: int, listId: string, productId: string) {
    0 <= k < |items| && IsPair(items[k], listId, productId) &&
    forall j :: 0 <= j < k ==> !IsPair(items[j], listId, productId)
  }

  /** `isProductChecked`: the checked flag of the first item of the pair, false if there is none. */
  function IsProductChecked(items: seq<ShoppingListItem>, listId: string, productId: string): (b: bool)
    ensures b ==> HasPair(items, listId, productId)
    ensures b ==> exists k :: 0 <= k < |items| && IsPair(items[k], listId, productId) && items[k].isChecked
    ensures b <==> exists k :: FirstOfPair(items, k, listId, productId) && items[k].isChecked
  {
    match FindFirst(items, (item: ShoppingListItem) => IsPair(item, listId, productId))
    case Some(item) => item.isChecked
    case None => false
  }

  /** `getListItems`: the items of one list, in relation order. */
  function GetListItems(items: seq<ShoppingListItem>, listId: string): (r: seq<ShoppingListItem>)
    ensures forall k :: 0 <= k < |r| ==> r[k].shoppingListId == listId && r[k] in items
    ensures forall k :: 0 <= k < |items| && items[k].shoppingListId == listId ==> items[k] in r
    ensures IsSubsequence(r, items)
    ensures |r| == Count(items, (item: ShoppingListItem) => item.shoppingListId == listId)
  {
    CountIsFilterLength(items, (item: ShoppingListItem) => item.shoppingListId == listId);
    Filter(items, (item: ShoppingListItem) => item.shoppingListId == listId)
  }

  /** `getListById`: the first list with the id. */
  function GetListById(lists: seq<ShoppingList>, id: string): (r: Option<ShoppingList>)
    ensures r.None? <==> ListIdFresh(lists, id)
    ensures r.Some? ==> r.value.id == id && r.value in lists
    ensures r.Some? ==> exists k :: 0 <= k < |lists| && lists[k] == r.value && forall j :: 0 <= j < k ==> lists[j].id != id
  {
    FindFirst(lists, (l: ShoppingList) => l.id == id)
  }

  /** Adding the same pair twice: the second call is refused and the relation does not grow. */
  lemma AddTwiceRefused(state: ListState, listId: string, productId: string, id1: string, id2: string, t1: Timestamp, t2: Timestamp)
    requires ItemIdFresh(state.listItems, id1)
    requires ItemIdFresh(AddProductToList(state, listId, productId, id1, t1).0.listItems, id2)
    ensures var s1 := AddProductToList(state, listId, productId, id1, t1).0;
      var second := AddProductToList(s1, listId, productId, id2, t2);
      second.1.None? && second.0 == s1 && |second.0.listItems| == |s1.listItems|
  {
  }

  /** Right after a successful add the pair reads as unchecked. */
  lemma AddedItemIsUnchecked(state: ListState, listId: string, productId: string, newItemId: string, now: Timestamp)
    requires ItemIdFresh(state.listItems, newItemId)
    requires !HasPair(state.listItems, listId, productId)
    ensures !IsProductChecked(AddProductToList(state, listId, productId, newItemId, now).0.listItems, listId, productId)
  {
    var items := AddProductToList(state, listId, productId, newItemId, now).0.listItems;
    var found := FindFirst(items, (item: ShoppingListItem) => IsPair(item, listId, productId));
    if found.Some? {
      var k :| 0 <= k < |items| && items[k] == found.value &&
        forall j :: 0 <= j < k ==> !IsPair(items[j], listId, productId);
      assert forall j :: 0 <= j < |state.listItems| ==> items[j] == state.listItems[j];
      assert k == |state.listItems|;
    }
  }

  /** Removing a pair that was just added restores the relation exactly. */
  lemma AddThenRemoveRestoresItems(state: ListState, listId: string, productId: string, newItemId: string, t1: Timestamp, t2: Timestamp)
    requires ItemIdFresh(state.listItems, newItemId)
    requires !HasPair(state.listItems, listId, productId)
    ensures var added := AddProductToList(state, listId, productId, newItemId, t1).0;
      RemoveProductFromList(added, listId, productId, t2).listItems == state.listItems
  {
    var added := AddProductToList(state, listId, productId, newItemId, t1);
    var keep := (item: ShoppingListItem) => !IsPair(item, listId, productId);
    FilterAppend(state.listItems, [added.1.value], keep);
    assert Filter([added.1.value], keep) == [];
  }

  /** Filtering twice, where the second test implies the first, is filtering once. */
  lemma {:induction false} FilterItemsTwice(items: seq<ShoppingListItem>, a: string, b: string)
    requires a != b
    ensures GetListItems(Filter(items, (item: ShoppingListItem) => item.shoppingListId != a), b) ==
      GetListItems(items, b)
  {
    if |items| > 0 {
      FilterItemsTwice(items[1..], a, b);
    }
  }

  /** Deleting list A leaves the items of every other list B exactly as they were, and A has none left. */
  lemma DeleteListKeepsOtherItems(state: ListState, a: string, b: string)
    requires a != b
    ensures GetListItems(DeleteList(state, a).listItems, b) == GetListItems(state.listItems, b)
    ensures GetListItems(DeleteList(state, a).listItems, a) == []
  {
    FilterItemsTwice(state.listItems, a, b);
  }

  /** Toggling twice restores every item exactly. */
  lemma ToggleTwiceRestores(state: ListState, listId: string, productId: string, t1: Timestamp, t2: Timestamp)
    ensures ToggleProductChecked(ToggleProductChecked(state, listId, productId, t1), listId, productId, t2).listItems ==
      state.listItems
  {
    var once := ToggleProductChecked(state, listId, productId, t1);
    var twice := ToggleProductChecked(once, listId, productId, t2);
    forall k | 0 <= k < |state.listItems| ensures twice.listItems[k] == state.listItems[k] {
      assert once.listItems[k] == Flip(state.listItems[k], listId, productId);
    }
  }

  /** A timestamp supplied with the updates has no effect: the update always stamps `now`. */
  lemma UpdateIgnoresSuppliedStamp(state: ListState, id: string, updates: ListUpdate, now: Timestamp)
    ensures UpdateList(state, id, updates, now) == UpdateList(state, id, updates.(updatedAt := None), now)
  {
  }

  /** Every operation of the store keeps the one-item-per-pair invariant. */
  lemma OperationsKeepPairsUnique(state: ListState, listId: string, productId: string, id: string, updates: ListUpdate, now: Timestamp)
    requires PairsUnique(state.listItems)
    ensures PairsUnique(DeleteList(state, id).listItems)
    ensures PairsUnique(RemoveProductFromList(state, listId, productId, now).listItems)
    ensures PairsUnique(UpdateList(state, id, updates, now).listItems)
  {
    SubsequenceKeepsPairsUnique(DeleteList(state, id).listItems, state.listItems);
    SubsequenceKeepsPairsUnique(RemoveProductFromList(state, listId, productId, now).listItems, state.listItems);
  }

  /** Deleting items cannot create a duplicate pair. */
  lemma {:induction false} SubsequenceKeepsPairsUnique(a: seq<ShoppingListItem>, b: seq<ShoppingListItem>)
    requires IsSubsequence(a, b) && PairsUnique(b)
    ensures PairsUnique(a)
  {
    if |a| > 0 {
      assert |b| > 0;
      assert PairsUnique(b[1..]) by {
        forall i, j | 0 <= i < j < |b[1..]|
          ensures !IsPair(b[1..][j], b[1..][i].shoppingListId, b[1..][i].productId)
        {
          assert b[1..][i] == b[i + 1] && b[1..][j] == b[j + 1];
        }
      }
      if a[0] == b[0] && IsSubsequence(a[1..], b[1..]) {
        SubsequenceKeepsPairsUnique(a[1..], b[1..]);
        SubsequenceMembers(a[1..], b[1..]);
        forall j | 0 < j < |a| ensures !IsPair(a[j], a[0].shoppingListId, a[0].productId) {
          assert a[j] == a[1..][j - 1];
          var m :| 0 <= m < |b[1..]| && b[1..][m] == a[j];
          assert b[m + 1] == a[j];
        }
      } else {
        SubsequenceKeepsPairsUnique(a, b[1..]);
      }
    }
  }

  /** Every element of a subsequence is an element of the whole. */
  lemma {:induction false} SubsequenceMembers<T>(a: seq<T>, b: seq<T>)
    requires IsSubsequence(a, b)
    ensures forall k :: 0 <= k < |a| ==> exists m :: 0 <= m < |b| && b[m] == a[k]
  {
    if |a| > 0 {
      if a[0] == b[0] && IsSubsequence(a[1..], b[1..]) {
        SubsequenceMembers(a[1..], b[1..]);
        forall k | 0 < k < |a| ensures exists m :: 0 <= m < |b| && b[m] == a[k] {
          assert a[k] == a[1..][k - 1];
          var m :| 0 <= m < |b[1..]| && b[1..][m] == a[k];
          assert b[m + 1] == a[k];
        }
      } else {
        SubsequenceMembers(a, b[1..]);
        forall k | 0 <= k < |a| ensures exists m :: 0 <= m < |b| && b[m] == a[k] {
          var m :| 0 <= m < |b[1..]| && b[1..][m] == a[k];
          assert b[m + 1] == a[k];
        }
      }
    }
  }
}
