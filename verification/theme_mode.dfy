/** The site's colour mode, held by the application shell. */
module ThemeMode {

  datatype Mode = Light | Dark

  /** The shell starts in light mode. */
  const InitialMode: Mode := Light

  /** `toggleTheme`: light becomes dark and dark becomes light. */
  function Toggle(m: Mode): (r: Mode)
    ensures r != m
  {
    if m == Light then Dark else Light
  }

  /** Toggling twice restores the mode. */
  lemma ToggleInvolution(m: Mode)
    ensures Toggle(Toggle(m)) == m
  {
  }
}
