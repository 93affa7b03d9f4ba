/**
  The colour theme of `initializeTheme`: the stored preference (any string, or
  nothing) chooses the initial theme, and each click flips it.
*/
module Theme {
  import opened Wrappers

  /** The stored preference when it is a non-empty string, otherwise "light". */
  function InitialTheme(stored: Option<string>): (t: string)
    ensures t != ""
    ensures stored.Some? && stored.value != "" ==> t == stored.value
  {
    match stored
    case Some(t) => if t != "" then t else "light"
    case None => "light"
  }

  /** The click handler: "dark" becomes "light", and anything else becomes "dark". */
  function Toggle(current: string): (t: string)
    ensures t == "light" || t == "dark"
    ensures t != current
  {
    if current == "dark" then "light" else "dark"
  }

  /** The two themes the page knows. */
  datatype Mode = Light | Dark

  function Name(m: Mode): string {
    match m
    case Light => "light"
    case Dark => "dark"
  }

  function Flip(m: Mode): Mode {
    match m
    case Light => Dark
    case Dark => Light
  }

  /** With nothing stored (or an empty string) the page starts light; a stored value is kept as is. */
  lemma InitialThemeDefault(stored: Option<string>)
    ensures InitialTheme(stored) == "light" <==>
              stored.None? || stored.value == "" || stored.value == "light"
    ensures stored.Some? && stored.value != "" ==> InitialTheme(stored) == stored.value
  {
  }

  /** On the two theme names the string toggle is the enum flip. */
  lemma ToggleIsFlip(m: Mode)
    ensures Toggle(Name(m)) == Name(Flip(m))
  {
  }

  /**
    Toggling twice returns to "light" or "dark"; from any other stored value it
    lands on "light".
  */
  lemma ToggleTwice(current: string)
    ensures current == "light" || current == "dark" ==> Toggle(Toggle(current)) == current
    ensures current != "light" && current != "dark" ==> Toggle(Toggle(current)) == "light"
  {
  }
}
