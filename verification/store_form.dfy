/**
  The store form (src/components/stores/AddEditStoreForm.tsx): the text fields
  it keeps, how it is filled when opened, and what saving does to the store
  collection. `parseFloat` is a parameter, and so is the `toString` of a
  coordinate.
 */
module StoreForm {
  import opened Seqs
  import opened Types
  import opened Text
  import opened StoreTypes
  import StoreContext

  /** The form's fields, all as typed. */
  datatype FormState = FormState(
    name: string,
    storeType: StoreType,
    address: string,
    latitude: string,
    longitude: string)

  /**
    Opening the form: editing copies the store's fields (an absent address
    as the empty text); creating starts blank as a grocery store.
   */
  function Open(storeToEdit: Option<Store>, numberText: real -> string): (r: FormState)
    ensures storeToEdit.Some? ==>
      var st := storeToEdit.value;
      && r.name == st.name && r.storeType == st.storeType
      && r.address == st.location.address.GetOr("")
      && r.latitude == numberText(st.location.latitude)
      && r.longitude == numberText(st.location.longitude)
    ensures storeToEdit.None? ==> r == FormState("", Grocery, "", "", "")
  {
    match storeToEdit
    case Some(st) =>
      FormState(st.name, st.storeType, st.location.address.GetOr(""),
        numberText(st.location.latitude), numberText(st.location.longitude))
    case None => FormState("", Grocery, "", "", "")
  }

  /** A coordinate field: empty means 0, anything else goes through `parseFloat`. */
  function Coordinate(text: string, parseFloat: string -> real): (v: real)
    ensures text == "" ==> v == 0.0
    ensures text != "" ==> v == parseFloat(text)
  {
    if text == "" then 0.0 else parseFloat(text)
  }

  /** The location saved: both coordinates and the trimmed address, absent when blank. */
  function Location(s: FormState, parseFloat: string -> real): (loc: StoreLocation)
    ensures loc.latitude == Coordinate(s.latitude, parseFloat)
    ensures loc.longitude == Coordinate(s.longitude, parseFloat)
    ensures loc.address.None? <==> IsBlank(s.address)
    ensures loc.address.Some? ==> loc.address.value == Trim(s.address) && !IsBlank(loc.address.value)
  {
    var address := Trim(s.address);
    if address == "" then StoreLocation(Coordinate(s.latitude, parseFloat), Coordinate(s.longitude, parseFloat), None)
    else
      TrimmedNotBlank(s.address);
      StoreLocation(Coordinate(s.latitude, parseFloat), Coordinate(s.longitude, parseFloat), Some(address))
  }

  /** Save is possible only with a name that is not blank. */
  predicate CanSave(s: FormState) {
    |Trim(s.name)| > 0
  }

  /** The store form can be saved exactly when the name is not blank. */
  lemma CanSaveIffNotBlank(s: FormState)
    ensures CanSave(s) <==> !IsBlank(s.name)
  {
  }

  /**
    `handleSave`. A blank name changes nothing. Editing sets the store's name
    (trimmed), type and location and keeps its category order; creating adds
    a store with the type's default order.
   */
  function HandleSave(stores: seq<Store>, s: FormState, storeToEdit: Option<Store>,
                      parseFloat: string -> real, newId: string): (r: seq<Store>)
    requires CanSave(s) && storeToEdit.None? ==> StoreContext.IdFresh(stores, newId)
    ensures IsBlank(s.name) ==> r == stores
    ensures !IsBlank(s.name) && storeToEdit.Some? ==>
      && |r| == |stores|
      && (forall k :: 0 <= k < |stores| && stores[k].id != storeToEdit.value.id ==> r[k] == stores[k])
      && (forall k :: 0 <= k < |stores| && stores[k].id == storeToEdit.value.id ==>
            r[k] == Store(stores[k].id, Trim(s.name), s.storeType, Location(s, parseFloat), stores[k].categoryOrder))
    ensures !IsBlank(s.name) && storeToEdit.None? ==>
      && |r| == |stores| + 1 && r[..|stores|] == stores
      && r[|stores|] == Store(newId, Trim(s.name), s.storeType, Location(s, parseFloat),
                              StoreTypeDefaults(s.storeType).categoryIds)
  {
    if !CanSave(s) then stores
    else
      var location := Location(s, parseFloat);
      match storeToEdit
      case Some(st) =>
        EditSetsFields(stores, st.id, Trim(s.name), s.storeType, location);
        StoreContext.UpdateStore(stores, st.id,
          StoreContext.StoreUpdate(Some(Trim(s.name)), Some(s.storeType), Some(location), None))
      case None =>
        var r := StoreContext.AddStore(stores, newId, Trim(s.name), s.storeType, location).0;
        assert r[..|stores|] == stores;
        r
  }

  /** An edit's update sets name, type and location of the stores with the id and keeps their order. */
  lemma EditSetsFields(stores: seq<Store>, id: string, name: string, storeType: StoreType, location: StoreLocation)
    ensures var r := StoreContext.UpdateStore(stores, id, StoreContext.StoreUpdate(Some(name), Some(storeType), Some(location), None));
      forall k :: 0 <= k < |stores| && stores[k].id == id ==>
        r[k] == Store(stores[k].id, name, storeType, location, stores[k].categoryOrder)
  {
    var r := StoreContext.UpdateStore(stores, id, StoreContext.StoreUpdate(Some(name), Some(storeType), Some(location), None));
    forall k | 0 <= k < |stores| && stores[k].id == id
      ensures r[k] == Store(stores[k].id, name, storeType, location, stores[k].categoryOrder)
    {
      var t := r[k];
      assert t.id == stores[k].id && t.name == name && t.storeType == storeType && t.location == location;
    }
  }

  /** The coordinates of a store survive being shown as text and parsed back. */
  predicate CoordinatesRoundTrip(loc: StoreLocation, numberText: real -> string, parseFloat: string -> real) {
    && numberText(loc.latitude) != "" && parseFloat(numberText(loc.latitude)) == loc.latitude
    && numberText(loc.longitude) != "" && parseFloat(numberText(loc.longitude)) == loc.longitude
  }

  /**
    Opening a store for editing and saving at once gives the collection back
    unchanged when its name is already trimmed, its address is absent or
    trimmed and not blank, and its coordinates survive the text round trip.
   */
  lemma OpenThenSaveIsNoOp(stores: seq<Store>, k: nat, numberText: real -> string, parseFloat: string -> real, newId: string)
    requires k < |stores| && StoreContext.UniqueIds(stores)
    requires var st := stores[k];
      && !IsBlank(st.name) && Trim(st.name) == st.name
      && CleanAddress(st)
      && CoordinatesRoundTrip(st.location, numberText, parseFloat)
    ensures HandleSave(stores, Open(Some(stores[k]), numberText), Some(stores[k]), parseFloat, newId) == stores
  {
    var st := stores[k];
    var s := Open(Some(st), numberText);
    OpenLocationRoundTrip(st, numberText, parseFloat);
    var u := StoreContext.StoreUpdate(Some(st.name), Some(st.storeType), Some(st.location), None);
    assert HandleSave(stores, s, Some(st), parseFloat, newId) == StoreContext.UpdateStore(stores, st.id, u);
    OwnValuesUpdate(stores, k);
  }

  /** With unique ids, writing a store's own name, type and location back changes nothing. */
  lemma OwnValuesUpdate(stores: seq<Store>, k: nat)
    requires k < |stores| && StoreContext.UniqueIds(stores)
    ensures var st := stores[k];
      StoreContext.UpdateStore(stores, st.id, StoreContext.StoreUpdate(Some(st.name), Some(st.storeType), Some(st.location), None)) == stores
  {
    var st := stores[k];
    var r := StoreContext.UpdateStore(stores, st.id, StoreContext.StoreUpdate(Some(st.name), Some(st.storeType), Some(st.location), None));
    forall j | 0 <= j < |stores| ensures r[j] == stores[j] {
      if stores[j].id == st.id {
        assert j == k;
      }
    }
  }

  /** A clean address and round-tripping coordinates come back from the form as the same location. */
  lemma OpenLocationRoundTrip(st: Store, numberText: real -> string, parseFloat: string -> real)
    requires CleanAddress(st) && CoordinatesRoundTrip(st.location, numberText, parseFloat)
    ensures Location(Open(Some(st), numberText), parseFloat) == st.location
  {
    if st.location.address.None? {
      assert IsBlank("");
    }
  }

  /** Editing a store after reordering its aisles keeps the new order. */
  lemma EditKeepsReorder(stores: seq<Store>, k: nat, newOrder: seq<string>, s: FormState,
                         parseFloat: string -> real, newId: string)
    requires k < |stores|
    ensures var reordered := StoreContext.ReorderStoreCategories(stores, stores[k].id, newOrder);
      var r := HandleSave(reordered, s, Some(stores[k]), parseFloat, newId);
      r[k].categoryOrder == newOrder
  {
  }

  /** Every address the form writes is trimmed and never blank; the store ids stay unique. */
  lemma SaveKeepsAddressesClean(stores: seq<Store>, s: FormState, storeToEdit: Option<Store>,
                                parseFloat: string -> real, newId: string)
    requires CanSave(s) && storeToEdit.None? ==> StoreContext.IdFresh(stores, newId)
    requires StoreContext.UniqueIds(stores)
    requires forall k :: 0 <= k < |stores| ==> CleanAddress(stores[k])
    ensures var r := HandleSave(stores, s, storeToEdit, parseFloat, newId);
      (forall k :: 0 <= k < |r| ==> CleanAddress(r[k])) && StoreContext.UniqueIds(r)
  {
    if CanSave(s) {
      LocationIsClean(s, parseFloat);
      if storeToEdit.Some? {
        EditKeepsAddressesClean(stores, s, storeToEdit.value, parseFloat, newId);
      } else {
        CreateKeepsAddressesClean(stores, s, parseFloat, newId);
      }
    }
  }

  /** Creating appends a store with a clean location and a fresh id. */
  lemma CreateKeepsAddressesClean(stores: seq<Store>, s: FormState, parseFloat: string -> real, newId: string)
    requires CanSave(s) && StoreContext.IdFresh(stores, newId) && StoreContext.UniqueIds(stores)
    requires CleanLocation(Location(s, parseFloat))
    requires forall k :: 0 <= k < |stores| ==> CleanAddress(stores[k])
    ensures var r := HandleSave(stores, s, None, parseFloat, newId);
      (forall k :: 0 <= k < |r| ==> CleanAddress(r[k])) && StoreContext.UniqueIds(r)
  {
    var added := StoreContext.AddStore(stores, newId, Trim(s.name), s.storeType, Location(s, parseFloat));
    assert HandleSave(stores, s, None, parseFloat, newId) == added.0;
    assert CleanAddress(added.1);
    forall k | 0 <= k < |added.0| ensures CleanAddress(added.0[k]) {
      if k < |stores| {
        assert added.0[k] == stores[k];
      }
    }
  }

  /** Editing writes a clean location over one store and leaves the ids as they were. */
  lemma EditKeepsAddressesClean(stores: seq<Store>, s: FormState, st: Store, parseFloat: string -> real, newId: string)
    requires CanSave(s) && CleanLocation(Location(s, parseFloat))
    requires forall k :: 0 <= k < |stores| ==> CleanAddress(stores[k])
    ensures var r := HandleSave(stores, s, Some(st), parseFloat, newId);
      && (forall k :: 0 <= k < |r| ==> CleanAddress(r[k]))
      && (forall k :: 0 <= k < |r| ==> r[k].id == stores[k].id)
  {
    var u := StoreContext.StoreUpdate(Some(Trim(s.name)), Some(s.storeType), Some(Location(s, parseFloat)), None);
    assert HandleSave(stores, s, Some(st), parseFloat, newId) == StoreContext.UpdateStore(stores, st.id, u);
    UpdateKeepsAddressesClean(stores, st.id, u);
  }

  /** The form always saves a clean location. */
  lemma LocationIsClean(s: FormState, parseFloat: string -> real)
    ensures CleanLocation(Location(s, parseFloat))
  {
    TrimIdempotent(s.address);
  }

  /** An update that writes a clean location, or none, keeps every address clean. */
  lemma UpdateKeepsAddressesClean(stores: seq<Store>, id: string, updates: StoreContext.StoreUpdate)
    requires forall k :: 0 <= k < |stores| ==> CleanAddress(stores[k])
    requires updates.location.Some? ==> CleanLocation(updates.location.value)
    ensures var r := StoreContext.UpdateStore(stores, id, updates);
      forall k :: 0 <= k < |r| ==> CleanAddress(r[k])
  {
    var r := StoreContext.UpdateStore(stores, id, updates);
    forall k | 0 <= k < |r| ensures CleanAddress(r[k]) {
      if stores[k].id == id {
        assert CleanAddress(stores[k]);
      }
    }
  }

  /** A location whose address is absent, or trimmed and not blank. */
  predicate CleanLocation(loc: StoreLocation) {
    loc.address.Some? ==> Trim(loc.address.value) == loc.address.value && !IsBlank(loc.address.value)
  }

  /** A store whose address is absent, or trimmed and not blank. */
  predicate CleanAddress(st: Store) {
    CleanLocation(st.location)
  }
}
