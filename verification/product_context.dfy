/**
  The product store (src/context/ProductContext.tsx): a sequence of products
  changed by append, `map` and `filter`. Each operation is a function from the
  old collection to the new one; `now` is the clock and `newId` the fresh id
  the source draws from `generateId`.
 */
module ProductContext {
  import opened Seqs
  import opened Types

  /** The fields an update may supply; `categoryId: Some(None)` clears the category. */
  datatype ProductUpdate = ProductUpdate(
    name: Option<string>,
    quantity: Option<ProductQuantity>,
    categoryId: Option<Option<string>>)

  /** Every product id is used once. */
  predicate UniqueIds(products: seq<Product>) {
    forall i, j :: 0 <= i < j < |products| ==> products[i].id != products[j].id
  }

  predicate IdFresh(products: seq<Product>, id: string) {
    forall i :: 0 <= i < |products| ==> products[i].id != id
  }

  /** `addProduct`: appends one new product and returns it. */
  function AddProduct(
    products: seq<Product>, newId: string, name: string, quantity: ProductQuantity,
    categoryId: Option<string>, now: Timestamp): (r: (seq<Product>, Product))
    requires IdFresh(products, newId)
    ensures r.0 == products + [r.1]
    ensures r.1.id == newId && r.1.name == name && r.1.quantity == quantity && r.1.categoryId == categoryId
    ensures r.1.createdAt == r.1.updatedAt == now
    ensures UniqueIds(products) ==> UniqueIds(r.0)
  {
    var p := Product(newId, name, quantity, categoryId, now, now);
    (products + [p], p)
  }

  /** `{ ...product, ...updates, updatedAt: now }`. */
  function ApplyUpdate(p: Product, updates: ProductUpdate, now: Timestamp): (q: Product)
    ensures q.id == p.id && q.createdAt == p.createdAt && q.updatedAt == now
    ensures q.name == updates.name.GetOr(p.name)
    ensures q.quantity == updates.quantity.GetOr(p.quantity)
    ensures q.categoryId == updates.categoryId.GetOr(p.categoryId)
  {
    p.(name := updates.name.GetOr(p.name),
       quantity := updates.quantity.GetOr(p.quantity),
       categoryId := updates.categoryId.GetOr(p.categoryId),
       updatedAt := now)
  }

  /** `updateProduct`: every product with the id is updated, the others are left alone. */
  function UpdateProduct(products: seq<Product>, id: string, updates: ProductUpdate, now: Timestamp): (r: seq<Product>)
    ensures |r| == |products|
    ensures forall k :: 0 <= k < |r| ==> r[k].id == products[k].id && r[k].createdAt == products[k].createdAt
    ensures forall k :: 0 <= k < |r| && products[k].id != id ==> r[k] == products[k]
    ensures forall k :: 0 <= k < |r| && products[k].id == id ==> r[k] == ApplyUpdate(products[k], updates, now)
    ensures UniqueIds(products) ==> UniqueIds(r)
  {
    seq(|products|, k requires 0 <= k < |products| =>
      if products[k].id == id then ApplyUpdate(products[k], updates, now) else products[k])
  }

  /** `deleteProduct`: removes every product with the id, keeps the rest in order; list items are not touched. */
  function DeleteProduct(products: seq<Product>, id: string): (r: seq<Product>)
    ensures forall k :: 0 <= k < |r| ==> r[k].id != id && r[k] in products
    ensures forall k :: 0 <= k < |products| && products[k].id != id ==> products[k] in r
    ensures IsSubsequence(r, products)
    ensures IdFresh(products, id) ==> r == products
    ensures |r| == Count(products, (p: Product) => p.id != id)
  {
    CountIsFilterLength(products, (p: Product) => p.id != id);
    Filter(products, (p: Product) => p.id != id)
  }

  /** `getProductById`: the first product with the id. */
  function GetProductById(products: seq<Product>, id: string): (r: Option<Product>)
    ensures r.None? <==> IdFresh(products, id)
    ensures r.Some? ==> r.value.id == id && r.value in products
    ensures r.Some? ==> exists k ::
      0 <= k < |products| && products[k] == r.value && forall j :: 0 <= j < k ==> products[j].id != id
  {
    FindFirst(products, (p: Product) => p.id == id)
  }

  /** With unique ids, lookup returns exactly the product carrying the id. */
  lemma GetProductByIdExact(products: seq<Product>, k: nat)
    requires UniqueIds(products)
    requires k < |products|
    ensures GetProductById(products, products[k].id) == Some(products[k])
  {
    var r := GetProductById(products, products[k].id);
    var m :| 0 <= m < |products| && products[m] == r.value &&
      forall j :: 0 <= j < m ==> products[j].id != products[k].id;
    assert m == k;
  }

  /** Update an absent id: nothing changes. */
  lemma UpdateAbsentIsNoOp(products: seq<Product>, id: string, updates: ProductUpdate, now: Timestamp)
    requires IdFresh(products, id)
    ensures UpdateProduct(products, id, updates, now) == products
  {
  }

  /**
    Update-then-get round trip: the supplied fields take their new values,
    the others keep theirs, `id` and `createdAt` stay, `updatedAt` becomes `now`.
   */
  lemma UpdateThenGet(products: seq<Product>, k: nat, updates: ProductUpdate, now: Timestamp)
    requires UniqueIds(products)
    requires k < |products|
    ensures var p := products[k];
      var q := GetProductById(UpdateProduct(products, p.id, updates, now), p.id);
      && q.Some?
      && q.value.id == p.id
      && q.value.createdAt == p.createdAt
      && q.value.updatedAt == now
      && q.value.name == (if updates.name.Some? then updates.name.value else p.name)
      && q.value.quantity == (if updates.quantity.Some? then updates.quantity.value else p.quantity)
      && q.value.categoryId == (if updates.categoryId.Some? then updates.categoryId.value else p.categoryId)
      && (now > p.updatedAt ==> q.value.updatedAt > p.updatedAt)
  {
    var updated := UpdateProduct(products, products[k].id, updates, now);
    GetProductByIdExact(updated, k);
  }

  /** Add-then-get round trip: the new product is found under its fresh id. */
  lemma AddThenGet(
    products: seq<Product>, newId: string, name: string, quantity: ProductQuantity,
    categoryId: Option<string>, now: Timestamp)
    requires UniqueIds(products) && IdFresh(products, newId)
    ensures var r := AddProduct(products, newId, name, quantity, categoryId, now);
      GetProductById(r.0, newId) == Some(r.1)
  {
    var r := AddProduct(products, newId, name, quantity, categoryId, now);
    GetProductByIdExact(r.0, |products|);
  }

  /** After a delete the id is gone. */
  lemma DeleteThenGet(products: seq<Product>, id: string)
    ensures GetProductById(DeleteProduct(products, id), id).None?
  {
  }
}
