/**
 * The theme-mode preference state machine of ThemeManager.kt.
 *
 * The state is the default shared-preferences map (string keys, string values)
 * together with AppCompatDelegate's process-wide default night mode.
 */
module ThemeManager {
  import opened Wrappers

  /** Preference key and the three stored spellings of a theme mode. */
  const PrefThemeMode: string := "theme_mode"
  const ThemeSystem: string := "system"
  const ThemeLight: string := "light"
  const ThemeDark: string := "dark"

  datatype ThemeMode = System | Light | Dark

  /**
   * AppCompatDelegate's default night mode. Unspecified is the platform's
   * value before anything has been set; the app only ever sets the other three.
   */
  datatype NightMode = Unspecified | NightNo | NightYes | FollowSystem

  datatype ThemeState = ThemeState(prefs: map<string, string>, nightMode: NightMode)

  /** The stored theme string, if the key is present. */
  function StoredTheme(prefs: map<string, string>): Option<string>
  {
    if PrefThemeMode in prefs then Some(prefs[PrefThemeMode]) else None
  }

  /** The string written for a mode. */
  function ThemeString(mode: ThemeMode): string
  {
    match mode
    case Light => ThemeLight
    case Dark => ThemeDark
    case System => ThemeSystem
  }

  /** The mode read back from a stored string: only the two exact spellings are recognised. */
  function ParseTheme(s: string): (mode: ThemeMode)
    ensures s == ThemeLight || s == ThemeDark || s == ThemeSystem ==> ThemeString(mode) == s
    ensures s != ThemeLight && s != ThemeDark ==> mode == System
  {
    if s == ThemeLight then Light
    else if s == ThemeDark then Dark
    else System
  }

  /** The night mode applyTheme installs for a theme mode. */
  function NightModeFor(mode: ThemeMode): NightMode
  {
    match mode
    case Light => NightNo
    case Dark => NightYes
    case System => FollowSystem
  }

  /** getThemeMode: an absent key reads as "system"; unknown strings also give System. */
  function GetThemeMode(st: ThemeState): (mode: ThemeMode)
    ensures mode == Light <==> StoredTheme(st.prefs) == Some(ThemeLight)
    ensures mode == Dark <==> StoredTheme(st.prefs) == Some(ThemeDark)
    ensures StoredTheme(st.prefs).None? ==> mode == System
  {
    var s := if PrefThemeMode in st.prefs then st.prefs[PrefThemeMode] else ThemeSystem;
    ParseTheme(s)
  }

  /** applyTheme: sets the default night mode only; preferences are not touched. */
  function ApplyTheme(st: ThemeState, mode: ThemeMode): (st': ThemeState)
    ensures st'.prefs == st.prefs
    ensures st'.nightMode == NightNo <==> mode == Light
    ensures st'.nightMode == NightYes <==> mode == Dark
    ensures st'.nightMode == FollowSystem <==> mode == System
  {
    st.(nightMode := NightModeFor(mode))
  }

  /** setThemeMode: persists the mode's string under "theme_mode", then applies it. */
  function SetThemeMode(st: ThemeState, mode: ThemeMode): (st': ThemeState)
    ensures GetThemeMode(st') == mode
    ensures StoredTheme(st'.prefs) == Some(ThemeString(mode))
    ensures st'.prefs.Keys == st.prefs.Keys + {PrefThemeMode}
    ensures forall k :: k in st.prefs && k != PrefThemeMode ==> st'.prefs[k] == st.prefs[k]
    ensures st'.nightMode == NightModeFor(mode)
  {
    ApplyTheme(st.(prefs := st.prefs[PrefThemeMode := ThemeString(mode)]), mode)
  }

  /** applySavedTheme: applies whatever mode the preferences decode to. */
  function ApplySavedTheme(st: ThemeState): (st': ThemeState)
    ensures st'.prefs == st.prefs
    ensures st'.nightMode == NightModeFor(GetThemeMode(st))
    ensures GetThemeMode(st') == GetThemeMode(st)
  {
    ApplyTheme(st, GetThemeMode(st))
  }

  /**
   * isDarkMode: DARK is dark, LIGHT is not, and SYSTEM is dark only when the
   * default night mode is YES (the platform's actual configuration is not consulted).
   */
  function IsDarkMode(st: ThemeState): (dark: bool)
    ensures GetThemeMode(st) == Dark ==> dark
    ensures GetThemeMode(st) == Light ==> !dark
    ensures GetThemeMode(st) == System ==> (dark <==> st.nightMode == NightYes)
  {
    match GetThemeMode(st)
    case Dark => true
    case Light => false
    case System => st.nightMode == NightYes
  }

  /** The mode toggleTheme switches to. */
  function Toggled(mode: ThemeMode): ThemeMode
  {
    match mode
    case Light => Dark
    case Dark => Light
    case System => Light
  }

  /** toggleTheme: LIGHT and DARK swap, SYSTEM goes to LIGHT; the result is stored and applied. */
  function ToggleTheme(st: ThemeState): (st': ThemeState)
    ensures GetThemeMode(st') != System
    ensures GetThemeMode(st) == Light ==> GetThemeMode(st') == Dark
    ensures GetThemeMode(st) == Dark ==> GetThemeMode(st') == Light
    ensures GetThemeMode(st) == System ==> GetThemeMode(st') == Light
    ensures st' == SetThemeMode(st, GetThemeMode(st'))
  {
    SetThemeMode(st, Toggled(GetThemeMode(st)))
  }

  /**
   * getThemeColor: picks the dark or the light colour resource. Resolving the
   * resource id to a colour value is left to the platform and not modelled.
   */
  function GetThemeColor(st: ThemeState, lightColor: int, darkColor: int): (color: int)
    ensures GetThemeMode(st) == Dark ==> color == darkColor
    ensures GetThemeMode(st) == Light ==> color == lightColor
    ensures GetThemeMode(st) == System && st.nightMode == NightYes ==> color == darkColor
    ensures GetThemeMode(st) == System && st.nightMode != NightYes ==> color == lightColor
  {
    if IsDarkMode(st) then darkColor else lightColor
  }

  /** The codec round-trips: the string written for a mode reads back as that mode. */
  lemma CodecRoundTrip(mode: ThemeMode)
    ensures ParseTheme(ThemeString(mode)) == mode
    ensures GetThemeMode(ThemeState(map[PrefThemeMode := ThemeString(mode)], Unspecified)) == mode
  {
  }

  /** The three spellings are distinct, so writing determines the mode. */
  lemma ThemeStringInjective(a: ThemeMode, b: ThemeMode)
    ensures ThemeString(a) == ThemeString(b) <==> a == b
  {
  }

  /** After setThemeMode(m), isDarkMode holds exactly for DARK: choosing SYSTEM always reads as light. */
  lemma IsDarkAfterSet(st: ThemeState, mode: ThemeMode)
    ensures IsDarkMode(SetThemeMode(st, mode)) <==> mode == Dark
    ensures !IsDarkMode(SetThemeMode(st, System))
  {
  }

  /** Toggling twice from LIGHT or DARK restores the mode and leaves the state as a plain re-set of it. */
  lemma ToggleTwice(st: ThemeState)
    requires GetThemeMode(st) != System
    ensures GetThemeMode(ToggleTheme(ToggleTheme(st))) == GetThemeMode(st)
    ensures ToggleTheme(ToggleTheme(st)) == SetThemeMode(st, GetThemeMode(st))
  {
  }

  /** From SYSTEM two toggles end in DARK, so the starting mode is not restored. */
  lemma ToggleTwiceFromSystem(st: ThemeState)
    requires GetThemeMode(st) == System
    ensures GetThemeMode(ToggleTheme(ToggleTheme(st))) == Dark
  {
  }

  /** After a toggle the app is dark exactly when it was stored as LIGHT before. */
  lemma IsDarkAfterToggle(st: ThemeState)
    ensures IsDarkMode(ToggleTheme(st)) <==> GetThemeMode(st) == Light
  {
  }

  /** With two different resources, the dark one is returned exactly when isDarkMode holds. */
  lemma ThemeColorFollowsDarkMode(st: ThemeState, lightColor: int, darkColor: int)
    requires lightColor != darkColor
    ensures GetThemeColor(st, lightColor, darkColor) == darkColor <==> IsDarkMode(st)
    ensures GetThemeColor(st, lightColor, darkColor) == lightColor <==> !IsDarkMode(st)
  {
  }

  /** setThemeMode is last-writer-wins: a second set overrides the first entirely. */
  lemma SetOverrides(st: ThemeState, first: ThemeMode, second: ThemeMode)
    ensures SetThemeMode(SetThemeMode(st, first), second) == SetThemeMode(st, second)
  {
  }
}
