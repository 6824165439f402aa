/**
  The product form (src/components/products/AddEditProductForm.tsx): the
  fields it keeps, how it is filled when opened, how it adopts a category
  suggestion while the name is typed, when it may be saved, and what saving
  does to the product collection.
 */
module ProductForm {
  import opened Seqs
  import opened Types
  import opened Text
  import CategoryHelper
  import ProductContext

  /** The form's fields; a category id is `undefined` as `None`. */
  datatype FormState = FormState(
    name: string,
    amount: string,
    unit: string,
    selectedCategoryId: Option<string>,
    suggestedCategoryId: Option<string>)

  /** The unit a new product starts with. */
  const DefaultUnit := "kg"

  /** JavaScript truthiness of an optional string: present and non-empty. */
  predicate Truthy(s: Option<string>) {
    s.Some? && s.value != ""
  }

  /**
    Opening the form: editing copies the product's fields (the amount through
    `toString`, given here as `amountText`) and keeps the last suggestion;
    creating starts from `initialName` (or nothing), no amount, kilograms and
    no category.
   */
  function Open(s: FormState, productToEdit: Option<Product>, initialName: Option<string>, amountText: real -> string)
    : (r: FormState)
    ensures productToEdit.Some? ==>
      && r.name == productToEdit.value.name
      && r.amount == amountText(productToEdit.value.quantity.amount)
      && r.unit == productToEdit.value.quantity.unit
      && r.selectedCategoryId == productToEdit.value.categoryId
      && r.suggestedCategoryId == s.suggestedCategoryId
    ensures productToEdit.None? ==>
      && (Truthy(initialName) ==> r.name == initialName.value)
      && (!Truthy(initialName) ==> r.name == "")
      && r.amount == "" && r.unit == DefaultUnit
      && r.selectedCategoryId.None? && r.suggestedCategoryId.None?
  {
    match productToEdit
    case Some(p) =>
      s.(name := p.name, amount := amountText(p.quantity.amount), unit := p.quantity.unit,
         selectedCategoryId := p.categoryId)
    case None =>
      FormState(if Truthy(initialName) then initialName.value else "", "", DefaultUnit, None, None)
  }

  /**
    The suggestion effect: when creating and the name is non-empty, the best
    catalog match is remembered as the suggestion, and it fills the category
    and unit only when no category is selected yet. The name and amount are
    never touched, and a selected category is never overridden.
   */
  function AdoptSuggestion(catalog: seq<Category>, s: FormState, editing: bool): (r: FormState)
    ensures r.name == s.name && r.amount == s.amount
    ensures Truthy(s.selectedCategoryId) ==> r.selectedCategoryId == s.selectedCategoryId && r.unit == s.unit
    ensures (editing || s.name == "") ==> r == s
    ensures CategoryHelper.SuggestCategory(catalog, s.name).None? ==> r == s
    ensures !editing && s.name != "" && CategoryHelper.SuggestCategory(catalog, s.name).Some? ==>
      var sg := CategoryHelper.SuggestCategory(catalog, s.name).value;
      && r.suggestedCategoryId == Some(sg.suggestedCategoryId)
      && (!Truthy(s.selectedCategoryId) ==>
            r.selectedCategoryId == Some(sg.suggestedCategoryId) && r.unit == sg.suggestedUnit)
  {
    if s.name != "" && !editing then
      match CategoryHelper.SuggestCategory(catalog, s.name)
      case None => s
      case Some(sg) =>
        var withSuggestion := s.(suggestedCategoryId := Some(sg.suggestedCategoryId));
        if !Truthy(s.selectedCategoryId) then
          withSuggestion.(selectedCategoryId := Some(sg.suggestedCategoryId), unit := sg.suggestedUnit)
        else withSuggestion
    else s
  }

  /**
    The effect re-runs when it changes the selected category; the second run
    changes nothing, so the form settles after one adoption.
   */
  lemma AdoptSuggestionSettles(catalog: seq<Category>, s: FormState, editing: bool)
    ensures AdoptSuggestion(catalog, AdoptSuggestion(catalog, s, editing), editing) == AdoptSuggestion(catalog, s, editing)
  {
  }

  /** A whitespace-only name is typed but matches nothing, so nothing is adopted. */
  lemma BlankNameAdoptsNothing(catalog: seq<Category>, s: FormState, editing: bool)
    requires IsBlank(s.name)
    ensures AdoptSuggestion(catalog, s, editing) == s
  {
    CategoryHelper.BlankNameHasNoSuggestion(catalog, s.name);
  }

  /** `parseAmount`: an empty field is no number; otherwise `Number` decides (`None` for a non-finite value). */
  function ParseAmount(input: string, number: string -> Option<real>): (r: Option<real>)
    ensures input == "" ==> r.None?
    ensures input != "" ==> r == number(input)
  {
    if input == "" then None else number(input)
  }

  /** `isFormValid`: a name that is not blank and an amount that parses to a positive number. */
  predicate IsFormValid(s: FormState, number: string -> Option<real>)
  {
    |Trim(s.name)| > 0 && ParseAmount(s.amount, number).Some? && ParseAmount(s.amount, number).value > 0.0
  }

  /** The save button's condition in terms of the raw fields, including the empty-amount case. */
  lemma FormValidIff(s: FormState, number: string -> Option<real>)
    ensures IsFormValid(s, number) <==>
      && !IsBlank(s.name)
      && s.amount != ""
      && number(s.amount).Some? && number(s.amount).value > 0.0
  {
  }

  /**
    `handleSave`. An invalid form changes nothing. Editing replaces the
    product's name with the trimmed name, its quantity with the parsed amount
    and unit, and its category with the selected one (clearing it when none
    is selected), stamps `updatedAt` and keeps `id` and `createdAt`. Creating
    appends a new product stamped `now` twice and returns it.
   */
  function HandleSave(
    products: seq<Product>, s: FormState, productToEdit: Option<Product>,
    number: string -> Option<real>, newId: string, now: Timestamp)
    : (r: (seq<Product>, Option<Product>))
    requires IsFormValid(s, number) && productToEdit.None? ==> ProductContext.IdFresh(products, newId)
    ensures !IsFormValid(s, number) ==> r == (products, None)
    ensures IsFormValid(s, number) && productToEdit.Some? ==>
      && r.1.None?
      && |r.0| == |products|
      && (forall k :: 0 <= k < |products| && products[k].id != productToEdit.value.id ==> r.0[k] == products[k])
      && (forall k :: 0 <= k < |products| && products[k].id == productToEdit.value.id ==>
            r.0[k] == products[k].(name := Trim(s.name),
                                   quantity := ProductQuantity(number(s.amount).value, s.unit),
                                   categoryId := s.selectedCategoryId,
                                   updatedAt := now))
    ensures IsFormValid(s, number) && productToEdit.None? ==>
      && r.1 == Some(Product(newId, Trim(s.name), ProductQuantity(number(s.amount).value, s.unit),
                             s.selectedCategoryId, now, now))
      && r.0 == products + [r.1.value]
  {
    if !IsFormValid(s, number) then (products, None)
    else
      var quantity := ProductQuantity(ParseAmount(s.amount, number).value, s.unit);
      match productToEdit
      case Some(p) =>
        var updates := ProductContext.ProductUpdate(Some(Trim(s.name)), Some(quantity), Some(s.selectedCategoryId));
        EditRewritesFields(products, p.id, Trim(s.name), quantity, s.selectedCategoryId, now);
        (ProductContext.UpdateProduct(products, p.id, updates, now), None)
      case None =>
        var (next, created) := ProductContext.AddProduct(products, newId, Trim(s.name), quantity, s.selectedCategoryId, now);
        (next, Some(created))
  }

  /** An update that supplies every editable field rewrites exactly those fields and the stamp. */
  lemma EditRewritesFields(
    products: seq<Product>, id: string, name: string, quantity: ProductQuantity, categoryId: Option<string>, now: Timestamp)
    ensures var r := ProductContext.UpdateProduct(products, id, ProductContext.ProductUpdate(Some(name), Some(quantity), Some(categoryId)), now);
      forall k :: 0 <= k < |products| && products[k].id == id ==>
        r[k] == products[k].(name := name, quantity := quantity, categoryId := categoryId, updatedAt := now)
  {
  }

  /** What the form guarantees of every product it writes: a trimmed, non-blank name and a positive amount. */
  predicate WellFormed(p: Product) {
    p.name == Trim(p.name) && !IsBlank(p.name) && p.quantity.amount > 0.0
  }

  /**
    Saving keeps the collection well formed and its ids unique: the product
    written has a trimmed, non-blank name and a positive amount, and every
    other product is left as it was.
   */
  lemma SaveKeepsWellFormed(
    products: seq<Product>, s: FormState, productToEdit: Option<Product>,
    number: string -> Option<real>, newId: string, now: Timestamp)
    requires IsFormValid(s, number) && productToEdit.None? ==> ProductContext.IdFresh(products, newId)
    requires forall k :: 0 <= k < |products| ==> WellFormed(products[k])
    requires ProductContext.UniqueIds(products)
    ensures var r := HandleSave(products, s, productToEdit, number, newId, now).0;
      && (forall k :: 0 <= k < |r| ==> WellFormed(r[k]))
      && ProductContext.UniqueIds(r)
  {
    if IsFormValid(s, number) {
      var name := Trim(s.name);
      TrimIdempotent(s.name);
      TrimmedNotBlank(s.name);
      var quantity := ProductQuantity(ParseAmount(s.amount, number).value, s.unit);
      match productToEdit
      case Some(p) =>
        var updates := ProductContext.ProductUpdate(Some(name), Some(quantity), Some(s.selectedCategoryId));
        assert HandleSave(products, s, productToEdit, number, newId, now).0 ==
          ProductContext.UpdateProduct(products, p.id, updates, now);
        UpdateKeepsWellFormed(products, p.id, updates, now);
      case None =>
        var created := ProductContext.AddProduct(products, newId, name, quantity, s.selectedCategoryId, now);
        assert HandleSave(products, s, productToEdit, number, newId, now).0 == created.0;
        assert WellFormed(created.1);
    }
  }

  /** An update that writes only a well-formed name and quantity keeps every product well formed. */
  lemma UpdateKeepsWellFormed(products: seq<Product>, id: string, updates: ProductContext.ProductUpdate, now: Timestamp)
    requires forall k :: 0 <= k < |products| ==> WellFormed(products[k])
    requires updates.name.Some? ==> updates.name.value == Trim(updates.name.value) && !IsBlank(updates.name.value)
    requires updates.quantity.Some? ==> updates.quantity.value.amount > 0.0
    ensures var r := ProductContext.UpdateProduct(products, id, updates, now);
      forall k :: 0 <= k < |r| ==> WellFormed(r[k])
  {
    var r := ProductContext.UpdateProduct(products, id, updates, now);
    forall k | 0 <= k < |r| ensures WellFormed(r[k]) {
      if products[k].id == id {
        assert WellFormed(products[k]);
      }
    }
  }

  /**
    Saving a created product and looking its id up returns that very product;
    saving an edit and looking up the edited id returns the form's values.
   */
  lemma SaveThenGet(
    products: seq<Product>, s: FormState, productToEdit: Option<Product>,
    number: string -> Option<real>, newId: string, now: Timestamp)
    requires IsFormValid(s, number)
    requires productToEdit.None? ==> ProductContext.IdFresh(products, newId)
    requires productToEdit.Some? ==> productToEdit.value in products
    requires ProductContext.UniqueIds(products)
    ensures var r := HandleSave(products, s, productToEdit, number, newId, now);
      var id := if productToEdit.Some? then productToEdit.value.id else newId;
      var got := ProductContext.GetProductById(r.0, id);
      && got.Some?
      && got.value.name == Trim(s.name)
      && got.value.quantity == ProductQuantity(number(s.amount).value, s.unit)
      && got.value.categoryId == s.selectedCategoryId
      && (productToEdit.None? ==> got == r.1)
  {
    var r := HandleSave(products, s, productToEdit, number, newId, now);
    if productToEdit.Some? {
      var k :| 0 <= k < |products| && products[k] == productToEdit.value;
      assert ProductContext.UniqueIds(r.0);
      ProductContext.GetProductByIdExact(r.0, k);
    } else {
      assert ProductContext.UniqueIds(r.0);
      ProductContext.GetProductByIdExact(r.0, |products|);
    }
  }

  /**
    Opening a well-formed product for editing and saving at once changes
    nothing but its `updatedAt`, when its amount survives the text round trip
    and no other product shares its id.
   */
  lemma OpenThenSaveOnlyTouches(
    products: seq<Product>, k: nat, s: FormState, amountText: real -> string,
    number: string -> Option<real>, newId: string, now: Timestamp)
    requires k < |products| && ProductContext.UniqueIds(products) && WellFormed(products[k])
    requires amountText(products[k].quantity.amount) != ""
    requires number(amountText(products[k].quantity.amount)) == Some(products[k].quantity.amount)
    ensures var p := products[k];
      var form := Open(s, Some(p), None, amountText);
      HandleSave(products, form, Some(p), number, newId, now).0 ==
      ProductContext.UpdateProduct(products, p.id, ProductContext.ProductUpdate(None, None, None), now)
  {
    var p := products[k];
    var form := Open(s, Some(p), None, amountText);
    assert form.name == p.name && ParseAmount(form.amount, number) == Some(p.quantity.amount);
    assert IsFormValid(form, number);
    var own := ProductContext.ProductUpdate(Some(p.name), Some(p.quantity), Some(p.categoryId));
    assert HandleSave(products, form, Some(p), number, newId, now).0 == ProductContext.UpdateProduct(products, p.id, own, now);
    OwnValuesUpdate(products, k, now);
  }

  /** With unique ids, writing a product's own name, quantity and category back only moves its `updatedAt`. */
  lemma OwnValuesUpdate(products: seq<Product>, k: nat, now: Timestamp)
    requires k < |products| && ProductContext.UniqueIds(products)
    ensures var p := products[k];
      ProductContext.UpdateProduct(products, p.id, ProductContext.ProductUpdate(Some(p.name), Some(p.quantity), Some(p.categoryId)), now) ==
      ProductContext.UpdateProduct(products, p.id, ProductContext.ProductUpdate(None, None, None), now)
  {
    var p := products[k];
    var r := ProductContext.UpdateProduct(products, p.id, ProductContext.ProductUpdate(Some(p.name), Some(p.quantity), Some(p.categoryId)), now);
    var u := ProductContext.UpdateProduct(products, p.id, ProductContext.ProductUpdate(None, None, None), now);
    forall j | 0 <= j < |products| ensures r[j] == u[j] {
      if products[j].id == p.id {
        assert j == k;
      }
    }
  }
}
