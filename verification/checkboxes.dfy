/** The set of ticked metric checkboxes and `handleCheckboxToggle`. */
module Checkboxes {

  /** `handleCheckboxToggle(p)`: copies the set, then deletes `p` if it was
      present and adds it otherwise. */
  function Toggle(checked: set<string>, p: string): (r: set<string>)
    ensures p in r <==> p !in checked
    ensures forall q :: q != p ==> (q in r <==> q in checked)
  {
    if p in checked then checked - {p} else checked + {p}
  }

  /** Toggling the same parameter twice restores the original set. */
  lemma ToggleTwice(checked: set<string>, p: string)
    ensures Toggle(Toggle(checked, p), p) == checked
  {
  }

  /** Toggles of two parameters can be applied in either order. */
  lemma ToggleCommutes(checked: set<string>, p: string, q: string)
    ensures Toggle(Toggle(checked, p), q) == Toggle(Toggle(checked, q), p)
  {
  }
}
