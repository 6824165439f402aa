/**
  The list form (src/components/lists/AddEditListForm.tsx): one name field,
  filled from the list when editing, saved trimmed, and refused when blank.
 */
module ListForm {
  import opened Seqs
  import opened Types
  import opened Text
  import opened ListContext

  /** Opening the form: the list's name when editing, empty otherwise. */
  function Open(listToEdit: Option<ShoppingList>): (name: string)
    ensures listToEdit.Some? ==> name == listToEdit.value.name
    ensures listToEdit.None? ==> name == ""
  {
    match listToEdit
    case Some(l) => l.name
    case None => ""
  }

  /** The save button is enabled exactly when the trimmed name is not empty. */
  predicate CanSave(name: string) {
    |Trim(name)| > 0
  }

  /** The list form can be saved exactly when the name is not blank. */
  lemma CanSaveIffNotBlank(name: string)
    ensures CanSave(name) <==> !IsBlank(name)
  {
  }

  /**
    `handleSave`. A blank name changes nothing. Editing renames the list to
    the trimmed name; creating adds a list with the trimmed name. Items are
    never touched.
   */
  function HandleSave(state: ListState, name: string, listToEdit: Option<ShoppingList>, newId: string, now: Timestamp)
    : (r: ListState)
    requires CanSave(name) && listToEdit.None? ==> ListIdFresh(state.lists, newId)
    ensures r.listItems == state.listItems
    ensures IsBlank(name) ==> r == state
    ensures !IsBlank(name) && listToEdit.Some? ==>
      && |r.lists| == |state.lists|
      && (forall k :: 0 <= k < |r.lists| && state.lists[k].id != listToEdit.value.id ==> r.lists[k] == state.lists[k])
      && (forall k :: 0 <= k < |r.lists| && state.lists[k].id == listToEdit.value.id ==>
            r.lists[k] == state.lists[k].(name := Trim(name), updatedAt := now))
    ensures !IsBlank(name) && listToEdit.None? ==>
      && |r.lists| == |state.lists| + 1 && r.lists[..|state.lists|] == state.lists
      && r.lists[|state.lists|] == ShoppingList(newId, Trim(name), now, now)
  {
    if !CanSave(name) then state
    else
      match listToEdit
      case Some(l) => UpdateList(state, l.id, ListUpdate(Some(Trim(name)), None), now)
      case None =>
        var r := AddList(state, newId, Trim(name), now).0;
        assert r.lists[..|state.lists|] == state.lists;
        r
  }

  /** A name that the form would save as it is: trimmed and not blank. */
  predicate CleanName(l: ShoppingList) {
    Trim(l.name) == l.name && !IsBlank(l.name)
  }

  /**
    Opening a list with a clean name for editing and saving at once changes
    nothing but the list's `updatedAt` (when no other list shares its id).
   */
  lemma OpenThenSaveOnlyTouches(state: ListState, k: nat, newId: string, now: Timestamp)
    requires k < |state.lists| && CleanName(state.lists[k])
    requires forall j :: 0 <= j < |state.lists| && j != k ==> state.lists[j].id != state.lists[k].id
    ensures var r := HandleSave(state, Open(Some(state.lists[k])), Some(state.lists[k]), newId, now);
      r == ListContext.UpdateList(state, state.lists[k].id, ListUpdate(None, None), now)
  {
    var l := state.lists[k];
    var r := HandleSave(state, Open(Some(l)), Some(l), newId, now);
    var u := ListContext.UpdateList(state, l.id, ListUpdate(None, None), now);
    assert forall j :: 0 <= j < |state.lists| ==> r.lists[j] == u.lists[j];
  }

  /** Every name the form writes is clean, so a collection of clean names stays clean. */
  lemma SaveKeepsNamesClean(state: ListState, name: string, listToEdit: Option<ShoppingList>, newId: string, now: Timestamp)
    requires CanSave(name) && listToEdit.None? ==> ListIdFresh(state.lists, newId)
    requires forall k :: 0 <= k < |state.lists| ==> CleanName(state.lists[k])
    ensures var r := HandleSave(state, name, listToEdit, newId, now);
      forall k :: 0 <= k < |r.lists| ==> CleanName(r.lists[k])
  {
    if CanSave(name) {
      TrimIdempotent(name);
      TrimmedNotBlank(name);
      var clean := Trim(name);
      match listToEdit
      case Some(l) =>
        assert HandleSave(state, name, listToEdit, newId, now) == UpdateList(state, l.id, ListUpdate(Some(clean), None), now);
        RenameKeepsNamesClean(state, l.id, clean, now);
      case None =>
        var added := AddList(state, newId, clean, now);
        assert HandleSave(state, name, listToEdit, newId, now) == added.0;
        forall k | 0 <= k < |added.0.lists| ensures CleanName(added.0.lists[k]) {
          if k < |state.lists| {
            assert added.0.lists[k] == state.lists[k];
          }
        }
    }
  }

  /** Renaming to a clean name keeps every list name clean. */
  lemma RenameKeepsNamesClean(state: ListState, id: string, name: string, now: Timestamp)
    requires Trim(name) == name && !IsBlank(name)
    requires forall k :: 0 <= k < |state.lists| ==> CleanName(state.lists[k])
    ensures var r := UpdateList(state, id, ListUpdate(Some(name), None), now);
      forall k :: 0 <= k < |r.lists| ==> CleanName(r.lists[k])
  {
    var r := UpdateList(state, id, ListUpdate(Some(name), None), now);
    forall k | 0 <= k < |r.lists| ensures CleanName(r.lists[k]) {
      if state.lists[k].id == id {
        assert r.lists[k].name == name;
      }
    }
  }
}
