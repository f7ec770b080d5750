/** The mode-to-radio mapping of SettingsActivity.setupThemeSelection. */
module Settings {
  import opened ThemeManager

  /** The checked-id reported by the radio group; OtherId is any other view id (for instance a cleared group). */
  datatype RadioId = RadioLight | RadioDark | RadioSystem | OtherId(id: int)

  /** The radio button checked for a mode on entry. */
  function RadioFor(mode: ThemeMode): (radio: RadioId)
    ensures !radio.OtherId?
    ensures ModeForRadio(radio) == mode
  {
    match mode
    case Light => RadioLight
    case Dark => RadioDark
    case System => RadioSystem
  }

  /** The mode selected by a checked id; anything unrecognised selects SYSTEM. */
  function ModeForRadio(radio: RadioId): (mode: ThemeMode)
    ensures radio.OtherId? ==> mode == System
  {
    match radio
    case RadioLight => Light
    case RadioDark => Dark
    case RadioSystem => System
    case OtherId(_) => System
  }

  /** On entry the checked radio is exactly the one for the stored mode. */
  function CheckedOnEntry(st: ThemeState): (radio: RadioId)
    ensures !radio.OtherId?
    ensures ModeForRadio(radio) == GetThemeMode(st)
  {
    RadioFor(GetThemeMode(st))
  }

  /**
   * The checked-change listener: map the id to a mode and hand it to
   * applyThemeAndRecreate, whose persisting part is setThemeMode.
   */
  function OnThemeChecked(st: ThemeState, radio: RadioId): (st': ThemeState)
    ensures GetThemeMode(st') == ModeForRadio(radio)
    ensures st'.nightMode == NightModeFor(ModeForRadio(radio))
    ensures !radio.OtherId? ==> CheckedOnEntry(st') == radio
    ensures radio.OtherId? ==> CheckedOnEntry(st') == RadioSystem
    ensures forall k :: k in st.prefs && k != PrefThemeMode ==> k in st'.prefs && st'.prefs[k] == st.prefs[k]
  {
    SetThemeMode(st, ModeForRadio(radio))
  }

  /** Mode to radio and back is the identity, and so is radio to mode and back for the three buttons. */
  lemma RadioRoundTrip(mode: ThemeMode, radio: RadioId)
    ensures ModeForRadio(RadioFor(mode)) == mode
    ensures !radio.OtherId? ==> RadioFor(ModeForRadio(radio)) == radio
  {
  }
}
