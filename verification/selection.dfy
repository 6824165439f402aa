/**
  The filter pills of the product and store overviews
  (src/screens/ProductsScreen.tsx, src/screens/StoresScreen.tsx): pressing a
  pill selects its value, and pressing the selected pill clears the selection.
 */
module Selection {
  import opened Seqs

  /** `setSelected(selected === value ? null : value)`. */
  function TogglePill<T(==)>(selected: Option<T>, pressed: T): (r: Option<T>)
    ensures r.None? <==> selected == Some(pressed)
    ensures r.Some? ==> r.value == pressed
  {
    if selected == Some(pressed) then None else Some(pressed)
  }

  /** Pressing one pill twice restores its own selection, and otherwise leaves nothing selected. */
  lemma PressTwice<T>(selected: Option<T>, pressed: T)
    ensures TogglePill(TogglePill(selected, pressed), pressed) == (if selected == Some(pressed) then Some(pressed) else None)
  {
  }

  /** After pressing, the pressed pill is selected exactly when it was not selected before. */
  lemma PressFlipsPill<T>(selected: Option<T>, pressed: T)
    ensures TogglePill(selected, pressed) == Some(pressed) <==> selected != Some(pressed)
  {
  }
}
