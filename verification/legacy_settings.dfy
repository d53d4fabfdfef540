/**
  The older settings module `use-settings.tsx`, which exports the same names as
  `use-settings.ts` with different behaviour: its defaults have no `filterInAppFriendly`
  field and its `setInAppWebView` touches nothing else. A stored record may still carry the
  field (written by the newer module); the spread `{...prev}` keeps it as it is, so it is
  modelled as optional.
 */
module LegacySettings {
  import opened Wrappers
  import Settings

  /** The record the older module reads and writes; `filterInAppFriendly` may be absent. */
  datatype LegacyAppSettings = LegacyAppSettings(
    theme: Settings.Theme,
    safeSearch: bool,
    inAppWebView: bool,
    saveHistory: bool,
    filterInAppFriendly: Option<bool>)

  /** `defaultSettings` of the older module: no `filterInAppFriendly`. */
  const Defaults: LegacyAppSettings := LegacyAppSettings(Settings.Dark, true, true, true, None)

  /** `toggleTheme()`. */
  function ToggleTheme(s: LegacyAppSettings): (r: LegacyAppSettings)
    ensures r.theme != s.theme
    ensures r.(theme := s.theme) == s
  {
    s.(theme := Settings.Flip(s.theme))
  }

  /** `setSafeSearch(value)`. */
  function SetSafeSearch(s: LegacyAppSettings, value: bool): (r: LegacyAppSettings)
    ensures r.safeSearch == value
    ensures r.(safeSearch := s.safeSearch) == s
  {
    s.(safeSearch := value)
  }

  /** `setInAppWebView(value)`: no coupling to any other field. */
  function SetInAppWebView(s: LegacyAppSettings, value: bool): (r: LegacyAppSettings)
    ensures r.inAppWebView == value
    ensures r.(inAppWebView := s.inAppWebView) == s
  {
    s.(inAppWebView := value)
  }

  /** `setSaveHistory(value)`. */
  function SetSaveHistory(s: LegacyAppSettings, value: bool): (r: LegacyAppSettings)
    ensures r.saveHistory == value
    ensures r.(saveHistory := s.saveHistory) == s
  {
    s.(saveHistory := value)
  }

  /** `setSettings(settings)`: the whole record replaced. */
  function SetSettings(s: LegacyAppSettings, next: LegacyAppSettings): LegacyAppSettings
  {
    next
  }

  lemma ToggleThemeInvolution(s: LegacyAppSettings)
    ensures ToggleTheme(ToggleTheme(s)) == s
  {
  }

  /** The newer record as the older module sees it, field for field. */
  function FromCurrent(s: Settings.AppSettings): LegacyAppSettings
  {
    LegacyAppSettings(s.theme, s.safeSearch, s.inAppWebView, s.saveHistory, Some(s.filterInAppFriendly))
  }

  /**
    On a record written by the newer module the two modules agree on every shared setter,
    except `setInAppWebView(false)` while the filter is on: the newer module switches the
    filter off, the older one leaves it on.
   */
  lemma ModulesAgreeExceptCoupling(s: Settings.AppSettings, value: bool)
    ensures ToggleTheme(FromCurrent(s)) == FromCurrent(Settings.ToggleTheme(s))
    ensures SetSafeSearch(FromCurrent(s), value) == FromCurrent(Settings.SetSafeSearch(s, value))
    ensures SetSaveHistory(FromCurrent(s), value) == FromCurrent(Settings.SetSaveHistory(s, value))
    ensures SetInAppWebView(FromCurrent(s), value) == FromCurrent(Settings.SetInAppWebView(s, value))
            <==> value || !s.filterInAppFriendly
  {
  }

  /** The two modules' defaults agree on the four shared fields. */
  lemma DefaultsAgree()
    ensures Defaults.(filterInAppFriendly := Some(false)) == FromCurrent(Settings.Defaults)
    ensures Defaults.filterInAppFriendly.None?
  {
  }
}
