/**
  The application settings of `use-settings.ts`: five fields with defaults, and one setter
  per field. Turning the in-app web view off also turns off the "in-app friendly" filter,
  which only makes sense while the in-app view is on.
 */
module Settings {

  /** `theme: "light" | "dark"`. */
  datatype Theme = Light | Dark

  /** `AppSettings`. */
  datatype AppSettings = AppSettings(
    theme: Theme,
    safeSearch: bool,
    inAppWebView: bool,
    saveHistory: bool,
    filterInAppFriendly: bool)

  /** `defaultSettings`. */
  const Defaults: AppSettings := AppSettings(Dark, true, true, true, false)

  /** `prev.theme === 'light' ? 'dark' : 'light'`. */
  function Flip(t: Theme): (r: Theme)
    ensures r != t
  {
    if t == Light then Dark else Light
  }

  /** `toggleTheme()`: the other theme, every other field kept. */
  function ToggleTheme(s: AppSettings): (r: AppSettings)
    ensures r.theme != s.theme
    ensures r.(theme := s.theme) == s
  {
    s.(theme := Flip(s.theme))
  }

  /** `setSafeSearch(value)`. */
  function SetSafeSearch(s: AppSettings, value: bool): (r: AppSettings)
    ensures r.safeSearch == value
    ensures r.(safeSearch := s.safeSearch) == s
  {
    s.(safeSearch := value)
  }

  /** `setInAppWebView(value)`: switching it off also switches the in-app-friendly filter off. */
  function SetInAppWebView(s: AppSettings, value: bool): (r: AppSettings)
    ensures r.inAppWebView == value
    ensures !value ==> !r.filterInAppFriendly
    ensures value ==> r.filterInAppFriendly == s.filterInAppFriendly
    ensures r.(inAppWebView := s.inAppWebView, filterInAppFriendly := s.filterInAppFriendly) == s
  {
    if !value then s.(inAppWebView := false, filterInAppFriendly := false)
    else s.(inAppWebView := true)
  }

  /** `setSaveHistory(value)`. */
  function SetSaveHistory(s: AppSettings, value: bool): (r: AppSettings)
    ensures r.saveHistory == value
    ensures r.(saveHistory := s.saveHistory) == s
  {
    s.(saveHistory := value)
  }

  /** `setFilterInAppFriendly(value)`. */
  function SetFilterInAppFriendly(s: AppSettings, value: bool): (r: AppSettings)
    ensures r.filterInAppFriendly == value
    ensures r.(filterInAppFriendly := s.filterInAppFriendly) == s
  {
    s.(filterInAppFriendly := value)
  }

  /** Toggling the theme twice changes nothing. */
  lemma ToggleThemeInvolution(s: AppSettings)
    ensures ToggleTheme(ToggleTheme(s)) == s
  {
  }

  /** The filter is never on while the in-app view is off, if it was not so already. */
  predicate FilterNeedsInAppView(s: AppSettings)
  {
    s.filterInAppFriendly ==> s.inAppWebView
  }

  /**
    The defaults and every setter except `setFilterInAppFriendly` keep the filter subordinate
    to the in-app view; `setFilterInAppFriendly(true)` alone can break it, as the code does not
    check the in-app view there.
   */
  lemma CouplingPreserved(s: AppSettings, value: bool)
    requires FilterNeedsInAppView(s)
    ensures FilterNeedsInAppView(Defaults)
    ensures FilterNeedsInAppView(ToggleTheme(s))
    ensures FilterNeedsInAppView(SetSafeSearch(s, value))
    ensures FilterNeedsInAppView(SetInAppWebView(s, value))
    ensures FilterNeedsInAppView(SetSaveHistory(s, value))
    ensures FilterNeedsInAppView(SetFilterInAppFriendly(s, false))
    ensures !FilterNeedsInAppView(SetFilterInAppFriendly(s.(inAppWebView := false), true))
  {
  }
}
