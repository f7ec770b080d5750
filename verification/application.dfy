/** The theme part of QRScannerApplication.onCreate: get, apply, then set the saved mode. */
module Application {
  import opened Wrappers
  import opened ThemeManager

  /** Start-up sequence run before any activity is created. */
  function OnCreate(st: ThemeState): (st': ThemeState)
    ensures GetThemeMode(st') == GetThemeMode(st)
    ensures StoredTheme(st'.prefs) == Some(ThemeString(GetThemeMode(st)))
    ensures st'.nightMode == NightModeFor(GetThemeMode(st))
    ensures st'.prefs.Keys == st.prefs.Keys + {PrefThemeMode}
    ensures forall k :: k in st.prefs && k != PrefThemeMode ==> st'.prefs[k] == st.prefs[k]
  {
    var mode := GetThemeMode(st);
    var applied := ApplyTheme(st, mode);
    SetThemeMode(applied, mode)
  }

  /** An unknown or missing stored value is normalised to "system" at start-up. */
  lemma OnCreateNormalisesUnknown(st: ThemeState)
    requires StoredTheme(st.prefs) != Some(ThemeLight) && StoredTheme(st.prefs) != Some(ThemeDark)
    ensures StoredTheme(OnCreate(st).prefs) == Some(ThemeSystem)
    ensures OnCreate(st).nightMode == FollowSystem
  {
  }

  /** Running start-up twice gives the same state as running it once. */
  lemma OnCreateIdempotent(st: ThemeState)
    ensures OnCreate(OnCreate(st)) == OnCreate(st)
  {
  }

  /** Right after start-up with SYSTEM stored, isDarkMode reports light whatever the platform shows. */
  lemma OnCreateSystemNeverDark(st: ThemeState)
    requires GetThemeMode(st) == System
    ensures !IsDarkMode(OnCreate(st))
  {
  }
}
