/**
  The record shapes of the app (src/types). Dates are whole milliseconds
  since the epoch (`Date.getTime()`); JavaScript numbers that are not dates
  (amounts, coordinates, confidences) are exact reals.
 */
module Types {
  import opened Seqs

  /** Milliseconds since the epoch. */
  type Timestamp = int

  /** A static catalog category. `defaultUnit` is optional. */
  datatype Category = Category(
    id: string,
    name: string,
    keywords: seq<string>,
    defaultUnit: Option<string>,
    icon: string,
    color: string)

  datatype ProductQuantity = ProductQuantity(amount: real, unit: string)

  datatype Product = Product(
    id: string,
    name: string,
    quantity: ProductQuantity,
    categoryId: Option<string>,
    createdAt: Timestamp,
    updatedAt: Timestamp)

  /** What the suggestion engine proposes for a product name. */
  datatype ProductSuggestion = ProductSuggestion(
    name: string,
    suggestedCategoryId: string,
    suggestedUnit: string,
    confidence: real)

  datatype ShoppingList = ShoppingList(
    id: string,
    name: string,
    createdAt: Timestamp,
    updatedAt: Timestamp)

  /** Membership of one product in one list, with its checked state. */
  datatype ShoppingListItem = ShoppingListItem(
    id: string,
    productId: string,
    shoppingListId: string,
    isChecked: bool,
    addedAt: Timestamp)

  datatype StoreType = Grocery | Pharmacy | Hardware | Hypermarket

  datatype StoreLocation = StoreLocation(latitude: real, longitude: real, address: Option<string>)

  /** A retail store; `categoryOrder` is its aisle order (duplicates are not prevented). */
  datatype Store = Store(
    id: string,
    name: string,
    storeType: StoreType,
    location: StoreLocation,
    categoryOrder: seq<string>)
}
