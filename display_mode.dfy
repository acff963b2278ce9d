/** The light/dark display preference: how it is read back from storage at
    start-up, how it is written, and how the header button flips it. */
module DisplayMode {
  import opened Wrappers

  datatype Mode = Light | Dark

  /** The string stored under the "todo-app-mode" key for a mode. */
  function Name(m: Mode): (s: string)
    ensures s == "light" || s == "dark"
    ensures s == "dark" <==> m == Dark
  {
    match m
    case Light => "light"
    case Dark => "dark"
  }

  /** `getInitialMode`: dark only when the stored value is exactly "dark";
      light for a missing entry and for any other string. */
  function InitialMode(stored: Option<string>): (m: Mode)
    ensures m == Dark <==> stored == Some("dark")
  {
    if stored == Some("dark") then Dark else Light
  }

  /** The header button: light becomes dark and anything else becomes light. */
  function Toggle(m: Mode): (r: Mode)
    ensures r != m
  {
    if m == Light then Dark else Light
  }

  lemma ToggleInvolution(m: Mode)
    ensures Toggle(Toggle(m)) == m
  {
  }

  /** Reading back the name that was written gives the same mode. */
  lemma StoredModeRoundTrip(m: Mode)
    ensures InitialMode(Some(Name(m))) == m
  {
  }
}
