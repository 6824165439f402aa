# Shopping-list core, modelled in Dafny

This project models the domain core of a React Native shopping-list app:

- the three in-memory entity stores:
  - shopping lists and their items (the many-to-many relation between lists and products);
  - products;
  - stores;
- the category suggestion engine and the static per-store-type defaults;
- the pure views the screens derive from the stores:
  - list progress and category grouping;
  - status filtering and the recency sort of the lists overview;
  - store aisle sections and the checked count;
  - the product and store search filters;
  - the relative-time text;
- the add/edit forms:
  - the amount-text sanitiser;
  - the save guards;
  - what saving writes.

Every store operation is a pure function from the old collection to the new one, over Dafny sequences. Every derived view is a pure function, with its meaning stated in its contract and in lemmas.

The environment becomes parameters:

- The clock is a `now: Timestamp` parameter, in milliseconds.
- `generateId` is a `newId` parameter, with the precondition that the id is not yet in use.
- The category catalog, whose contents are not part of this model, is a `catalog: seq<Category>` parameter.
- `Number`, `parseFloat` and the `toString` of a number are function parameters.

JavaScript truthiness is modelled where the code relies on it:

- `categoryId || 'uncategorized'` treats an empty id as absent.
- So does `defaultUnit || 'pcs'`.
- `!selectedCategoryId` is true for both undefined and `""`.
- `product.categoryId && …` excludes `""`.

Two behaviours of the code are stated as they are:

- **Progress can exceed 1.** List progress divides the number of checked *items* by the number of *products* that resolve. Deleting a product does not delete its list items, so an orphaned checked item can push progress above 1 (`ListDetailScreen.ProgressCanExceedOne`). Progress is at most 1 once every item of the list resolves and no (list, product) pair repeats (`ListDetailScreen.ProgressAtMostOne`).
- **A repeated id repeats a section.** `reorderStoreCategories` accepts any sequence. A category id repeated in a store's order therefore repeats that aisle section, and the sections then count a product twice (`StoreDetailScreen.RepeatedIdRepeatsSection`). With a duplicate-free order, the sections hold each placed product exactly once (`StoreDetailScreen.SectionsSizeBound`).

Modules (one file each):

- `Seqs`: filter, count and first-match helpers with their algebra.
- `Text`: ASCII lower-casing, trimming and substring search.
- `Types`: the records.
- `CategoryHelper`, `StoreTypes`.
- `ListContext`, `ProductContext`, `StoreContext`.
- `Formatters`, `Grouping`.
- The screens: `ListDetailScreen`, `ListsScreen`, `StoreDetailScreen`, `ProductsScreen`, `StoresScreen`, plus `Selection` for the filter pills.
- The forms: `AmountInput`, `ProductForm`, `StoreForm`, `ListForm`.

## Model

| member | source | states |
|---|---|---|
| CategoryHelper.Normalize | src/utils/categoryHelper.ts:9 | the name lower-cased, then trimmed |
| CategoryHelper.SuggestCategory | src/utils/categoryHelper.ts:8-44 | no suggestion exactly when the normalised name is empty or no category has a keyword occurring in it; otherwise the suggestion echoes the raw name, names a best-matching category with its unit and a confidence in [1/3, 1] |
| CategoryHelper.MatchCounts | src/utils/categoryHelper.ts:18-26 | one count per category, in catalog order, each the number of its keywords occurring in the normalised name |
| CategoryHelper.BestIndex | src/utils/categoryHelper.ts:28-35 | no index exactly when every count is zero; otherwise the earliest index with a positive count that no other count exceeds |
| CategoryHelper.Confidence | src/utils/categoryHelper.ts:36 | confidence is count/3 below three hits and 1 from three on, so it lies in [1/3, 1] for any hit |
| CategoryHelper.UnitOf | src/utils/categoryHelper.ts:41 | the unit is the category's default unit when present and non-empty, else "pcs" |
| CategoryHelper.BlankNameHasNoSuggestion | src/utils/categoryHelper.ts:9-13 | an empty or whitespace-only name yields no suggestion |
| CategoryHelper.BestMatchUnique | src/utils/categoryHelper.ts:32-35 | there is exactly one best match: the best count, and earliest among those tied on it |
| CategoryHelper.TieGoesToEarliest | src/utils/categoryHelper.ts:33-35 | of two categories tied on count, the later one is never suggested (the sort is stable) |
| CategoryHelper.GetCategoryById | src/utils/categoryHelper.ts:49-51 | absent exactly when no category has the id; otherwise the first category with it |
| CategoryHelper.GetCategoryByIdExact | src/context/CategoryContext.tsx:13-15 | with distinct catalog ids, the lookup returns a category exactly when it is in the catalog with that id |
| CategoryHelper.GetCategoriesByIds | src/utils/categoryHelper.ts:56-60 | the result is no longer than the ids, holds only catalog categories for requested ids, keeps every known id, and is as long as the ids when all are known |
| CategoryHelper.GetCategoriesByIdsAppend | src/utils/categoryHelper.ts:56-60 | the lookup distributes over concatenation, so input order is kept |
| CategoryHelper.GetCategoriesByIdsSingle | src/utils/categoryHelper.ts:56-60 | one id gives its category, or nothing when the id is unknown |
| StoreTypes.StoreTypeDefaults | src/constants/storeTypes.ts:3-27 | every store type has a default order, non-empty and free of duplicates |
| StoreTypes.HypermarketDrawsFromGroceryAndPharmacy | src/constants/storeTypes.ts:7-25 | each Hypermarket default id also occurs in the Grocery or the Pharmacy defaults |
| StoreTypes.DefaultsVisuallyDistinct | src/constants/storeTypes.ts:7-26 | two different store types have different icons and different colours |
| ProductContext.AddProduct | src/context/ProductContext.tsx:18-30 | appends exactly one product with the fresh id and the given name, quantity and category, created and updated now; ids stay unique |
| ProductContext.ApplyUpdate | src/context/ProductContext.tsx:36 | supplied fields take the new values, the others and id and createdAt are kept, updatedAt is now |
| ProductContext.UpdateProduct | src/context/ProductContext.tsx:32-40 | length and order are kept, products with another id are unchanged, matching ones are updated; ids stay unique |
| ProductContext.DeleteProduct | src/context/ProductContext.tsx:42-44 | removes every product with the id and keeps all others in order; an absent id changes nothing; its length is the number of matching entries, so each is kept once per occurrence |
| ProductContext.GetProductById | src/context/ProductContext.tsx:46-48 | absent exactly when no product has the id; otherwise the first product with it |
| ProductContext.GetProductByIdExact | src/context/ProductContext.tsx:46-48 | with unique ids, looking up a product's id returns that product |
| ProductContext.UpdateAbsentIsNoOp | src/context/ProductContext.tsx:32-40 | updating an id no product has leaves the collection unchanged |
| ProductContext.UpdateThenGet | src/context/ProductContext.tsx:32-48 | after an update the product is found with the supplied fields, the old other fields, the same id and createdAt, and updatedAt now |
| ProductContext.AddThenGet | src/context/ProductContext.tsx:18-30 | a product just added is found under its id |
| ProductContext.DeleteThenGet | src/context/ProductContext.tsx:42-48 | after a delete, the id is not found |
| StoreContext.AddStore | src/context/StoreContext.tsx:20-33 | appends exactly one store whose aisle order is its type's default; ids stay unique |
| StoreContext.ApplyUpdate | src/context/StoreContext.tsx:36 | supplied fields take the new values, the rest and the id are kept |
| StoreContext.UpdateStore | src/context/StoreContext.tsx:35-37 | only stores with the id change; an absent id changes nothing; ids stay unique |
| StoreContext.DeleteStore | src/context/StoreContext.tsx:39-41 | removes every store with the id and keeps the others in order; its length is the number of matching entries, so each is kept once per occurrence |
| StoreContext.ReorderStoreCategories | src/context/StoreContext.tsx:43-47 | the matching store gets exactly the new order, whatever it holds, with name, type and location unchanged; other stores are unchanged |
| StoreContext.GetStoreById | src/context/StoreContext.tsx:49-51 | absent exactly when no store has the id; otherwise the first store with it |
| StoreContext.GetFirstMatch | src/context/StoreContext.tsx:49-51 | a store with no earlier store of the same id is exactly what the lookup returns for that id |
| StoreContext.ReorderIsOrderOnlyUpdate | src/context/StoreContext.tsx:43-47 | reordering equals an update that supplies only the order |
| StoreContext.ReorderDoesNotAlias | src/context/StoreContext.tsx:21-28 | reordering one of two stores seeded with the shared default leaves the other at the default |
| StoreContext.DeleteThenGet | src/context/StoreContext.tsx:39-51 | after a delete, the id is not found |
| ListContext.TouchList | src/context/ListContext.tsx:69-71 | only lists with the id change, and only in updatedAt |
| ListContext.AddList | src/context/ListContext.tsx:25-35 | appends exactly one list with the fresh id and name, created and updated now; items are untouched |
| ListContext.UpdateList | src/context/ListContext.tsx:37-41 | a matching list becomes exactly the list with the same id and createdAt, the new name if supplied and updatedAt now, whatever timestamp the updates carry; others unchanged; items untouched; an absent id is a no-op |
| ListContext.DeleteList | src/context/ListContext.tsx:43-46 | removes the list and exactly its items, keeping every other list and item in order; the lengths are the numbers of other lists and items, so each is kept once per occurrence |
| ListContext.AddProductToList | src/context/ListContext.tsx:48-74 | an existing pair is refused with no change; otherwise one unchecked item for the pair is appended and only that list is touched; at most one item per pair is kept |
| ListContext.RemoveProductFromList | src/context/ListContext.tsx:76-85 | no item for the pair remains, every other item is kept in order and once per occurrence (the length is their count), and the list is touched even if nothing was removed |
| ListContext.ToggleProductChecked | src/context/ListContext.tsx:87-100 | items for the pair flip isChecked, no other field or item changes, the list is touched, pairs stay unique |
| ListContext.IsProductChecked | src/context/ListContext.tsx:102-107 | true exactly when the first item of the pair exists and is checked, so false for an absent pair |
| ListContext.GetListItems | src/context/ListContext.tsx:109-111 | exactly the items of the list, in order; its length is the number of matching entries, so each is kept once per occurrence |
| ListContext.GetListById | src/context/ListContext.tsx:113-115 | absent exactly when no list has the id; otherwise the first list with it |
| ListContext.AddTwiceRefused | src/context/ListContext.tsx:48-56 | adding the same pair a second time returns nothing and changes nothing |
| ListContext.AddedItemIsUnchecked | src/context/ListContext.tsx:58-66 | right after an add, the pair reads as unchecked |
| ListContext.AddThenRemoveRestoresItems | src/context/ListContext.tsx:58-85 | adding a new pair and removing it gives back the original items |
| ListContext.DeleteListKeepsOtherItems | src/context/ListContext.tsx:43-46 | deleting one list keeps another list's items exactly, and leaves the deleted one with none |
| ListContext.ToggleTwiceRestores | src/context/ListContext.tsx:87-94 | toggling a pair twice gives back the original items |
| ListContext.UpdateIgnoresSuppliedStamp | src/context/ListContext.tsx:37-41 | an `updatedAt` supplied in the updates has no effect, since the spread is followed by `updatedAt: new Date()` |
| ListContext.OperationsKeepPairsUnique | src/context/ListContext.tsx:43-94 | delete, remove and any update keep "at most one item per pair" |
| Formatters.FloorDiv | src/utils/formatters.ts:20-23 | the quotient q satisfies q·d ≤ x < q·d + d, which is Math.floor for a positive divisor, negative differences included |
| Formatters.FloorDivTwice | src/utils/formatters.ts:20-23 | flooring by a then by b equals flooring by a·b, so the chained minutes, hours and days are floors of the milliseconds |
| Formatters.Bucket | src/utils/formatters.ts:19-34 | the bucket is just-now, minutes, hours, days or date by the millisecond thresholds; the value is in 1-59, 1-23 or 1-6 and brackets the difference |
| Formatters.BucketMonotone | src/utils/formatters.ts:20-34 | a larger difference never lands in a finer bucket, nor in a smaller value of the same bucket |
| Formatters.NatToString | src/utils/formatters.ts:28 | the decimal text is non-empty, all digits, with no leading zero except for 0 itself |
| Formatters.NatToStringRoundTrip | src/utils/formatters.ts:28-32 | reading the decimal text back gives the number |
| Formatters.FormatRelativeTime | src/utils/formatters.ts:17-35 | "just now" exactly under a minute, the locale date from a week on, else "n unit(s) ago" for the bucket value |
| Formatters.FutureIsJustNow | src/utils/formatters.ts:19-26 | a date in the future reads "just now" |
| Formatters.PluralIffNotOne | src/utils/formatters.ts:28-32 | the text ends in the plural word exactly when the value is not 1 |
| Grouping.GroupKey | src/screens/ListDetailScreen.tsx:54 | the bucket is the category id when present and non-empty, otherwise 'uncategorized' |
| Grouping.GroupByCategory | src/screens/ListDetailScreen.tsx:52-62 | the `reduce` itself, pushing each product onto its key's bucket and opening a bucket at the end for a new key; what it builds is stated by GroupByCategoryIsReference and GroupByCategoryShape |
| Grouping.WithKeyIsFilter | src/screens/ListDetailScreen.tsx:52-62 | a bucket holds exactly the products with its key, in product order |
| Grouping.GroupByCategoryIsReference | src/screens/ListDetailScreen.tsx:52-62 | the reduce builds the same buckets as "one bucket per distinct key, in first-occurrence order, each the filter by its key" |
| Grouping.GroupByCategoryShape | src/screens/ListDetailScreen.tsx:52-65 | bucket keys are distinct and in first-occurrence order, every product has a bucket, each bucket is its key's filter and non-empty |
| Grouping.GroupSizesSum | src/screens/ListDetailScreen.tsx:52-62 | the buckets together hold exactly as many products as the input: a partition |
| Grouping.KeysDistinct | src/screens/ListDetailScreen.tsx:55-57 | a key gets a bucket only once |
| Grouping.KeysOrdered | src/screens/ListDetailScreen.tsx:52-65 | keys appear in the order of their first product |
| ListDetailScreen.ListProductIds | src/screens/ListDetailScreen.tsx:38-40 | an id is listed exactly when some item of this list names it |
| ListDetailScreen.ListProducts | src/screens/ListDetailScreen.tsx:42 | exactly the products some item of this list names, in product order |
| ListDetailScreen.AvailableProducts | src/screens/ListDetailScreen.tsx:72 | exactly the products no item of this list names, in product order |
| ListDetailScreen.ListAndAvailablePartition | src/screens/ListDetailScreen.tsx:42-72 | every product is in exactly one of the two views, and their sizes add up to the collection's |
| ListDetailScreen.CompletedItems | src/screens/ListDetailScreen.tsx:46-48 | the number of checked items of this list, at most the list's item count |
| ListDetailScreen.Ratio | src/screens/ListDetailScreen.tsx:49 | for a positive total the result times the total is the completed count, so it is completed/total; 0 for no total; at most 1 exactly when completed ≤ total, and 1 exactly when equal |
| ListDetailScreen.Progress | src/screens/ListDetailScreen.tsx:44-49 | with list products, the result times their number is the number of checked items of the list (checked items over list products); 0 when the list has no products; at most 1 exactly when the checked items do not outnumber the list products |
| ListDetailScreen.ProgressAtMostOne | src/screens/ListDetailScreen.tsx:45-49 | progress is at most 1 when every item of the list resolves and pairs are unique |
| ListDetailScreen.ListItemsAtMostListProducts | src/screens/ListDetailScreen.tsx:38-48 | under the same conditions, the list has no more items than resolving products |
| ListDetailScreen.ProgressCanExceedOne | src/screens/ListDetailScreen.tsx:45-49 | a checked orphaned item next to one resolving item gives progress 2 |
| ListDetailScreen.SectionTitle | src/screens/ListDetailScreen.tsx:67 | the catalog name, or 'Uncategorized' when the category is unknown or its name is empty |
| ListDetailScreen.Sections | src/screens/ListDetailScreen.tsx:52-69 | one section per distinct bucket key, each holding its bucket (non-empty) with the catalog title, covering every list product, in order of each key's first list product |
| ListDetailScreen.FilteredAvailable | src/screens/ListDetailScreen.tsx:72-75 | exactly the available products whose name contains the search, case-insensitively, as a subsequence of the products, each matching available product kept once per occurrence |
| ListDetailScreen.EmptySearchOffersAll | src/screens/ListDetailScreen.tsx:73-75 | an empty search offers every available product |
| ListDetailScreen.IsChecked | src/screens/ListDetailScreen.tsx:98-102 | true exactly when some item of this list for the product is checked |
| ListDetailScreen.IsCheckedAgreesWithStore | src/screens/ListDetailScreen.tsx:98-102 | with unique pairs, the screen's check agrees with the store's first-match check |
| ListsScreen.GetListStats | src/screens/ListsScreen.tsx:29-34 | total is the list's item count, completed its checked count, completed ≤ total |
| ListsScreen.IsCompleted | src/screens/ListsScreen.tsx:42 | a list is completed when it has items and every one is checked |
| ListsScreen.IsActive | src/screens/ListsScreen.tsx:43 | a list is active when it has no items or some item is unchecked |
| ListsScreen.Shown | src/screens/ListsScreen.tsx:37-50 | the status test applies only under 'active' or 'completed', and the name search always applies |
| ListsScreen.ActiveIffNotCompleted | src/screens/ListsScreen.tsx:42-43 | a list is active exactly when it is not completed |
| ListsScreen.FilteredLists | src/screens/ListsScreen.tsx:37-50 | exactly the lists passing the status and name tests, as a subsequence of the lists; its length is the number of matching entries, so each is kept once per occurrence |
| ListsScreen.AllFilterIsSearchOnly | src/screens/ListsScreen.tsx:38-49 | under 'all' only the name search applies, and an empty search keeps every list |
| ListsScreen.StatusViewsPartition | src/screens/ListsScreen.tsx:40-47 | the active and completed views together are as large as the 'all' view |
| ListsScreen.SortByRecency | src/screens/ListsScreen.tsx:53-55 | the result is ordered by updatedAt descending and is a permutation of the input |
| ListsScreen.SortKeepsSorted | src/screens/ListsScreen.tsx:53-55 | lists already in recency order are left as they are |
| ListsScreen.DisplayedLists | src/screens/ListsScreen.tsx:37-55 | the displayed lists are a recency-sorted permutation of the filtered lists |
| StoreDetailScreen.Stocked | src/screens/StoreDetailScreen.tsx:25-27 | a product is stocked when its category id is present, non-empty and in the store's order |
| StoreDetailScreen.StoreProducts | src/screens/StoreDetailScreen.tsx:25-27 | exactly the products with a non-empty category that the store's order lists, in product order; its length is the number of matching entries, so each is kept once per occurrence |
| StoreDetailScreen.CategoryProducts | src/screens/StoreDetailScreen.tsx:33 | the stocked products whose category is the given id |
| StoreDetailScreen.StoreSections | src/screens/StoreDetailScreen.tsx:30-49 | every section is titled with its category's catalog name and holds that category's stocked products, never none |
| StoreDetailScreen.SectionsFollowOrder | src/screens/StoreDetailScreen.tsx:30-49 | section ids are exactly the entries of the store's order that the catalog knows and that have stocked products, in order and once per entry (repeats included), so every such category gets a section |
| StoreDetailScreen.SectionsSizeCountsPlaced | src/screens/StoreDetailScreen.tsx:30-51 | with a duplicate-free order, the sections hold exactly the stocked products whose category the catalog knows |
| StoreDetailScreen.SectionsSizeBound | src/screens/StoreDetailScreen.tsx:30-51 | with a duplicate-free order, section sizes sum to at most the product total, and equal it when the catalog knows every id |
| StoreDetailScreen.RepeatedIdRepeatsSection | src/screens/StoreDetailScreen.tsx:30-33 | an order repeating an id repeats its section, so the sections count one product twice |
| StoreDetailScreen.CheckedProductIds | src/screens/StoreDetailScreen.tsx:54-56 | an id is in the set exactly when some item on any list for it is checked |
| StoreDetailScreen.CheckedCount | src/screens/StoreDetailScreen.tsx:57 | the number of stocked products in that set, at most the product total |
| ProductsScreen.MatchesCategory | src/screens/ProductsScreen.tsx:25 | no selection, or an empty selected id, matches every product; otherwise only products of that category |
| ProductsScreen.FilteredProducts | src/screens/ProductsScreen.tsx:23-27 | exactly the products matching both the case-insensitive search and the category test, in order; its length is the number of matching entries, so each is kept once per occurrence |
| ProductsScreen.NoCategoryIsSearchOnly | src/screens/ProductsScreen.tsx:25 | with no category selected only the search applies, and an empty search keeps everything |
| ProductsScreen.SelectedCategoryOnly | src/screens/ProductsScreen.tsx:25 | with a category selected, every result carries it, so uncategorized products drop out |
| ProductsScreen.GroupedProducts | src/screens/ProductsScreen.tsx:30-37 | the buckets partition the filtered products by key, preserving order, with distinct keys, and in order of each key's first filtered product |
| StoresScreen.MatchesStoreSearch | src/screens/StoresScreen.tsx:33-35 | the name matches the search, or the store has an address and it matches |
| StoresScreen.MatchesType | src/screens/StoresScreen.tsx:36 | no selected type matches every store; otherwise only stores of that type |
| StoresScreen.FilteredStores | src/screens/StoresScreen.tsx:32-38 | exactly the stores whose name or present address contains the search and whose type passes, as a subsequence; its length is the number of matching entries, so each is kept once per occurrence |
| StoresScreen.NoFilterKeepsAll | src/screens/StoresScreen.tsx:32-38 | an empty search with no type keeps every store |
| StoresScreen.AddressAloneCanMatch | src/screens/StoresScreen.tsx:33-35 | a store whose address alone matches the search is shown |
| Selection.TogglePill | src/screens/ProductsScreen.tsx:73-76 | pressing the selected pill clears the selection; pressing any other selects it |
| Selection.PressFlipsPill | src/screens/StoresScreen.tsx:77 | a pill ends up selected exactly when it was not selected before |
| Selection.PressTwice | src/screens/StoresScreen.tsx:77 | pressing the same pill twice restores a selection of that pill and otherwise leaves nothing selected |
| Text.Trim | src/utils/categoryHelper.ts:9 | the result is the input with a blank prefix and a blank suffix removed, with no whitespace at either end; it is empty exactly for blank text |
| Text.ToLower | src/screens/ListDetailScreen.tsx:74 | same length; each upper-case ASCII letter becomes its lower-case letter (code + 32); other characters kept |
| Text.Contains | src/screens/ListDetailScreen.tsx:74 | `includes`: the needle is a prefix of the text or of one of its suffixes |
| Text.ContainsIffOccurs | src/screens/ListDetailScreen.tsx:74 | the scan succeeds exactly when the needle occurs at some position of the text |
| Text.MatchesSearch | src/screens/ListDetailScreen.tsx:74 | the lower-cased text contains the lower-cased query |
| Text.SearchIgnoresCase | src/screens/ProductsScreen.tsx:24 | lower-casing the text or the query beforehand never changes whether the search matches |
| Text.EmptySearchMatches | src/screens/ListDetailScreen.tsx:73-75 | every text contains the empty search |
| AmountInput.Sanitize | src/components/products/AddEditProductForm.tsx:75-81 | only digits and dots remain; at most one dot, exactly one when a dot or comma was typed; all digits kept in order; the digits before the dot are those typed before the first separator |
| AmountInput.SplitShape | src/components/products/AddEditProductForm.tsx:78 | splitting on '.' gives one more part than dots, the first part being the text before the first dot |
| AmountInput.ConcatSplit | src/components/products/AddEditProductForm.tsx:79 | joining the parts without separators drops exactly the dots |
| AmountInput.SanitizeClosedForm | src/components/products/AddEditProductForm.tsx:78-79 | the split-and-join keeps the first dot and drops the later ones |
| AmountInput.DropLaterDots | src/components/products/AddEditProductForm.tsx:78-79 | with two or more dots, only the first is kept, digits and the text before it stay, only digits and dots remain |
| AmountInput.AllowedFacts | src/components/products/AddEditProductForm.tsx:76-77 | after the two replacements only digits and dots remain, there is no dot exactly when no separator was typed, and the digits are kept |
| AmountInput.SanitizeIdempotent | src/components/products/AddEditProductForm.tsx:75-81 | sanitising sanitised text changes nothing |
| ProductForm.Open | src/components/products/AddEditProductForm.tsx:42-59 | editing copies the product's fields and keeps the last suggestion; creating starts from the initial name with no amount, kg, and no category |
| ProductForm.AdoptSuggestion | src/components/products/AddEditProductForm.tsx:62-73 | only when creating with a non-empty name: the suggestion is remembered, and fills category and unit only if none is selected; name, amount and a selection are never changed |
| ProductForm.AdoptSuggestionSettles | src/components/products/AddEditProductForm.tsx:62-73 | the effect's re-run after it changes the selection changes nothing |
| ProductForm.BlankNameAdoptsNothing | src/components/products/AddEditProductForm.tsx:63-64 | a whitespace-only name adopts nothing |
| ProductForm.ParseAmount | src/components/products/AddEditProductForm.tsx:83-87 | empty text is no number; other text is what Number gives |
| ProductForm.IsFormValid | src/components/products/AddEditProductForm.tsx:89-90 | the trimmed name is non-empty and the amount parses to a number greater than 0 |
| ProductForm.FormValidIff | src/components/products/AddEditProductForm.tsx:89-90 | the form is valid exactly when the name is not blank, the amount text is non-empty, and it parses to a positive number |
| ProductForm.HandleSave | src/components/products/AddEditProductForm.tsx:92-111 | invalid saves nothing; editing writes the trimmed name, parsed quantity and selected category (clearing it when none) and updatedAt now, keeping id and createdAt; creating appends and returns a product with the new id, those fields, and createdAt and updatedAt now |
| ProductForm.SaveKeepsWellFormed | src/components/products/AddEditProductForm.tsx:92-109 | saving keeps every product's name trimmed and non-blank, its amount positive, and ids unique |
| ProductForm.SaveThenGet | src/components/products/AddEditProductForm.tsx:102-111 | after a save, the saved id is found with the form's values, and a created product is the one returned |
| ProductForm.OpenThenSaveOnlyTouches | src/components/products/AddEditProductForm.tsx:47-51 | opening a well-formed product and saving at once changes only its updatedAt |
| ProductForm.UpdateKeepsWellFormed | src/context/ProductContext.tsx:32-38 | an update writing only a trimmed non-blank name and a positive amount keeps every product well formed |
| StoreForm.Open | src/components/stores/AddEditStoreForm.tsx:32-46 | editing copies name, type, address (empty when absent) and coordinates; creating starts blank as a grocery store |
| StoreForm.Coordinate | src/components/stores/AddEditStoreForm.tsx:54-55 | empty coordinate text is 0, any other text is parsed |
| StoreForm.Location | src/components/stores/AddEditStoreForm.tsx:57-61 | the address is absent exactly when blank, and otherwise trimmed and non-blank |
| StoreForm.LocationIsClean | src/components/stores/AddEditStoreForm.tsx:57-61 | whatever is typed, the saved address is absent or trimmed and non-blank |
| StoreForm.CanSave | src/components/stores/AddEditStoreForm.tsx:48-50 | saving proceeds only when the trimmed name is non-empty |
| StoreForm.CanSaveIffNotBlank | src/components/stores/AddEditStoreForm.tsx:48-50 | the store form saves exactly when the name is not blank |
| StoreForm.HandleSave | src/components/stores/AddEditStoreForm.tsx:48-71 | a blank name saves nothing; editing sets name, type and location and keeps the aisle order; creating adds a store with the type's default order |
| StoreForm.OpenThenSaveIsNoOp | src/components/stores/AddEditStoreForm.tsx:32-38 | opening a clean store and saving at once gives the collection back unchanged |
| StoreForm.OpenLocationRoundTrip | src/components/stores/AddEditStoreForm.tsx:36-38 | a clean address and coordinates that survive the text round trip come back from the form as the same location |
| StoreForm.EditKeepsReorder | src/components/stores/AddEditStoreForm.tsx:63-68 | editing after a reorder keeps the new order, even when the type changes |
| StoreForm.SaveKeepsAddressesClean | src/components/stores/AddEditStoreForm.tsx:57-61 | every stored address stays absent or trimmed and non-blank, and ids stay unique |
| ListForm.Open | src/components/lists/AddEditListForm.tsx:24-30 | editing starts from the list's name, creating from the empty name |
| ListForm.CanSave | src/components/lists/AddEditListForm.tsx:33-35 | saving proceeds only when the trimmed name is non-empty |
| ListForm.CanSaveIffNotBlank | src/components/lists/AddEditListForm.tsx:33-35 | the list form saves exactly when the name is not blank |
| ListForm.HandleSave | src/components/lists/AddEditListForm.tsx:32-41 | a blank name saves nothing; editing renames to the trimmed name and bumps updatedAt; creating adds a list with the trimmed name; items untouched |
| ListForm.OpenThenSaveOnlyTouches | src/components/lists/AddEditListForm.tsx:37-38 | opening a list with a clean name and saving at once changes only its updatedAt |
| ListForm.SaveKeepsNamesClean | src/components/lists/AddEditListForm.tsx:32-41 | every stored list name stays trimmed and non-blank |
| ListForm.RenameKeepsNamesClean | src/context/ListContext.tsx:37-41 | renaming to a clean name keeps every list name clean |

## Left out

- `formatQuantity` (src/utils/formatters.ts:6-12): its `toFixed` is floating-point formatting. Amounts are exact reals here.
- `toLocaleDateString` is locale-dependent. It is the `localeDate` parameter of `Formatters.FormatRelativeTime`.
- The alphabetical `localeCompare` sort of stores (src/screens/StoresScreen.tsx:41) is locale-dependent. `StoresScreen.FilteredStores` stops before it.
- `generateId` (src/utils/formatters.ts:41-43) reads the clock and `Math.random`. It is replaced by a fresh-id parameter.
- Every `new Date()` is replaced by the `now` parameter.
- `Number`, `parseFloat` and a number's `toString` are abstract function parameters. NaN and infinities are folded into `ProductForm.ParseAmount`'s `None`.
- `StoreForm.Coordinate` does not model a `parseFloat` result of NaN. That value has no counterpart in `real`.
- `Math.round` of the percentage and the progress-bar clamp are presentation only.
- Lower-casing and trimming cover ASCII only. Unicode case mapping and Unicode whitespace are not modelled.
- The category catalog's contents are not part of this model. The catalog is a parameter.
- `CategoryContext`'s lookup (src/context/CategoryContext.tsx:13-15) is the same `find` as `CategoryHelper.GetCategoryById`, which models both.
- `Grouping.GroupByCategory`, `ListDetailScreen.Sections` and `ProductsScreen.GroupedProducts` keep keys in insertion order. JavaScript objects put canonical array-index keys (such as "12") first. Category ids are assumed not to be such strings. The accumulator `{}` also inherits `Object.prototype`: for a key such as `constructor`, `toString`, `hasOwnProperty` or `__proto__`, `acc[categoryId]` is already truthy and the following `push` throws a TypeError (src/screens/ListDetailScreen.tsx:54-57, src/screens/ProductsScreen.tsx:31-34). The model groups such ids like any other key, so category ids are also assumed not to name an inherited property.
- UpdateList: an update that spells out `name: undefined`, which the `Partial` type admits, would leave the list without a name. The model's name is always a string, so an absent name in the updates means the name is kept.
- `ListsScreen.SortByRecency` is a stable insertion sort. It is proved sorted and a permutation; stability is not stated.
- React rendering, modals, lists, `Alert` confirmations, navigation, styling and the shared visual components are presentation only.
- The errors thrown by the hooks used outside a provider are framework plumbing.
- React state batching and the stale read of `listItems` in `addProductToList` are not modelled. Each operation is one atomic step.
- Form resets after save and close, and other UI state such as the picker visibility, are not modelled. They do not affect stored data.
- `ProductForm.Open` takes the product's amount text from a `toString` parameter. It does not model how numbers print.
