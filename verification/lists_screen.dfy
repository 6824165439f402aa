/**
  The derived views of the lists overview (src/screens/ListsScreen.tsx): the
  per-list item statistics, the status and search filter, and the ordering by
  most recent update.
 */
module ListsScreen {
  import opened Seqs
  import opened Types
  import opened Text
  import opened ListContext

  /** The status pills: every list, lists with work left, lists with everything checked. */
  datatype StatusFilter = All | Active | Completed

  /** `getListStats`: how many items the list has and how many of them are checked. */
  datatype ListStats = ListStats(total: nat, completed: nat)

  function GetListStats(items: seq<ShoppingListItem>, listId: string): (s: ListStats)
    ensures s.total == |GetListItems(items, listId)|
    ensures s.completed == Count(items, (item: ShoppingListItem) => item.shoppingListId == listId && item.isChecked)
    ensures s.completed <= s.total
  {
    var own := GetListItems(items, listId);
    var ofList := (item: ShoppingListItem) => item.shoppingListId == listId;
    var checked := (item: ShoppingListItem) => item.isChecked;
    var both := (item: ShoppingListItem) => item.shoppingListId == listId && item.isChecked;
    FilterCongruent(items, (item: ShoppingListItem) => item.shoppingListId == listId, ofList);
    CountOfFilter(items, ofList, checked, both);
    CountIsFilterLength(own, checked);
    ListStats(|own|, |Filter(own, checked)|)
  }

  /** `isCompleted`: at least one item and all of them checked. */
  predicate IsCompleted(s: ListStats) {
    s.total > 0 && s.completed == s.total
  }

  /** `isActive`: no items yet, or some item still unchecked. */
  predicate IsActive(s: ListStats) {
    s.total == 0 || s.completed < s.total
  }

  /** Every list is exactly one of active and completed. */
  lemma ActiveIffNotCompleted(items: seq<ShoppingListItem>, listId: string)
    ensures IsActive(GetListStats(items, listId)) <==> !IsCompleted(GetListStats(items, listId))
  {
  }

  /** The filter predicate of the overview: the status test (unless `All`) and the name search. */
  predicate Shown(list: ShoppingList, items: seq<ShoppingListItem>, searchText: string, filter: StatusFilter) {
    var stats := GetListStats(items, list.id);
    && (filter == Completed ==> IsCompleted(stats))
    && (filter == Active ==> IsActive(stats))
    && MatchesSearch(list.name, searchText)
  }

  /** `filteredLists`: the lists passing the filter, in their stored order. */
  function FilteredLists(lists: seq<ShoppingList>, items: seq<ShoppingListItem>, searchText: string, filter: StatusFilter)
    : (r: seq<ShoppingList>)
    ensures forall k :: 0 <= k < |r| ==> r[k] in lists && Shown(r[k], items, searchText, filter)
    ensures forall k :: 0 <= k < |lists| && Shown(lists[k], items, searchText, filter) ==> lists[k] in r
    ensures IsSubsequence(r, lists)
    ensures |r| == Count(lists, (l: ShoppingList) => Shown(l, items, searchText, filter))
  {
    CountIsFilterLength(lists, (l: ShoppingList) => Shown(l, items, searchText, filter));
    Filter(lists, (l: ShoppingList) => Shown(l, items, searchText, filter))
  }

  /** Under `All` only the name search applies, and an empty search keeps every list. */
  lemma AllFilterIsSearchOnly(lists: seq<ShoppingList>, items: seq<ShoppingListItem>, searchText: string)
    ensures FilteredLists(lists, items, searchText, All) ==
      Filter(lists, (l: ShoppingList) => MatchesSearch(l.name, searchText))
    ensures FilteredLists(lists, items, "", All) == lists
  {
    FilterCongruent(lists,
      (l: ShoppingList) => Shown(l, items, searchText, All),
      (l: ShoppingList) => MatchesSearch(l.name, searchText));
    forall k | 0 <= k < |lists| ensures Shown(lists[k], items, "", All) {
      EmptySearchMatches(lists[k].name);
    }
  }

  /** The active and the completed views split the `All` view between them. */
  lemma StatusViewsPartition(lists: seq<ShoppingList>, items: seq<ShoppingListItem>, searchText: string)
    ensures |FilteredLists(lists, items, searchText, Active)| + |FilteredLists(lists, items, searchText, Completed)|
      == |FilteredLists(lists, items, searchText, All)|
  {
    var all := (l: ShoppingList) => Shown(l, items, searchText, All);
    var active := (l: ShoppingList) => Shown(l, items, searchText, Active);
    var completed := (l: ShoppingList) => Shown(l, items, searchText, Completed);
    forall k | 0 <= k < |lists| ensures all(lists[k]) <==> active(lists[k]) || completed(lists[k]) {
      ActiveIffNotCompleted(items, lists[k].id);
    }
    CountDisjointUnion(lists, all, active, completed);
    CountIsFilterLength(lists, all);
    CountIsFilterLength(lists, active);
    CountIsFilterLength(lists, completed);
  }

  /** Most recently updated first. */
  predicate SortedByRecency(s: seq<ShoppingList>) {
    forall i, j :: 0 <= i < j < |s| ==> s[i].updatedAt >= s[j].updatedAt
  }

  /** Places `x` before the first list that is not more recent, so `x` precedes its ties. */
  function Insert(x: ShoppingList, s: seq<ShoppingList>): (r: seq<ShoppingList>)
    requires SortedByRecency(s)
    ensures SortedByRecency(r)
    ensures multiset(r) == multiset(s) + multiset{x}
    ensures |r| == |s| + 1 && (r[0] == x || (|s| > 0 && r[0] == s[0]))
  {
    if |s| == 0 then [x]
    else if s[0].updatedAt <= x.updatedAt then [x] + s
    else
      var rest := Insert(x, s[1..]);
      assert s == [s[0]] + s[1..];
      assert rest[0].updatedAt <= s[0].updatedAt;
      [s[0]] + rest
  }

  /**
    `sortedLists`: the comparator `b.updatedAt - a.updatedAt`, a stable sort;
    the result is ordered most recent first and is a permutation of the input.
   */
  function SortByRecency(lists: seq<ShoppingList>): (r: seq<ShoppingList>)
    ensures SortedByRecency(r)
    ensures multiset(r) == multiset(lists)
    ensures |r| == |lists|
  {
    if |lists| == 0 then []
    else
      assert lists == [lists[0]] + lists[1..];
      Insert(lists[0], SortByRecency(lists[1..]))
  }

  /** Lists already in order are left where they are. */
  lemma {:induction false} SortKeepsSorted(lists: seq<ShoppingList>)
    requires SortedByRecency(lists)
    ensures SortByRecency(lists) == lists
  {
    if |lists| > 0 {
      SortKeepsSorted(lists[1..]);
    }
  }

  /** The lists the overview displays: filtered, then sorted by recency. */
  function DisplayedLists(lists: seq<ShoppingList>, items: seq<ShoppingListItem>, searchText: string, filter: StatusFilter)
    : (r: seq<ShoppingList>)
    ensures SortedByRecency(r)
    ensures multiset(r) == multiset(FilteredLists(lists, items, searchText, filter))
    ensures forall k :: 0 <= k < |r| ==> r[k] in lists && Shown(r[k], items, searchText, filter)
  {
    var filtered := FilteredLists(lists, items, searchText, filter);
    var r := SortByRecency(filtered);
    MembersOfPermutation(filtered, r);
    r
  }

  /** A permutation holds only members of the original. */
  lemma MembersOfPermutation(s: seq<ShoppingList>, r: seq<ShoppingList>)
    requires multiset(r) == multiset(s)
    ensures forall k :: 0 <= k < |r| ==> r[k] in s
  {
    forall k | 0 <= k < |r| ensures r[k] in s {
      assert r[k] in multiset(r);
    }
  }
}
