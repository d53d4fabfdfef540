/**
  The in-app page viewer (`WebViewer`): two flags, `isLoading` and `iframeError`, driven by
  the frame's events, and the header/frame rendering derived from them. The frame always
  loads the tab's url directly; back and forward are permanently disabled.
 */
module WebViewer {
  import opened Wrappers
  import Tabs

  datatype ViewerState = ViewerState(isLoading: bool, iframeError: bool)

  /** `useState(true)` and `useState(false)`, and the state every url change resets to. */
  const Initial: ViewerState := ViewerState(true, false)

  /** What the load handler finds when it inspects the frame's content window. */
  datatype LoadProbe =
    | AboutBlank      // `contentWindow.location.href === 'about:blank'`
    | AccessThrows    // reading the location throws (a cross-origin page)
    | NoWindow        // `contentWindow` is null
    | OtherLocation   // any other readable location

  datatype Event =
    | UrlChanged             // the effect on `[tab?.url]` runs again
    | Loaded(probe: LoadProbe)
    | LoadFailed             // the frame's `error` event
    | ReloadClicked          // `reloadIframe`: only reassigns the frame's `src`

  /** The load handler flags an error when the frame shows `about:blank` or cannot be inspected. */
  predicate LoadLooksBlocked(p: LoadProbe)
  {
    p == AboutBlank || p == AccessThrows
  }

  /** One event. */
  function Step(s: ViewerState, e: Event): (r: ViewerState)
    ensures e == UrlChanged ==> r == Initial
    ensures e.Loaded? ==> !r.isLoading && (r.iframeError <==> s.iframeError || LoadLooksBlocked(e.probe))
    ensures e == LoadFailed ==> !r.isLoading && r.iframeError
    ensures e == ReloadClicked ==> r == s
  {
    match e
    case UrlChanged => ViewerState(true, false)
    case Loaded(p) =>
      if p == AboutBlank || p == AccessThrows then ViewerState(false, true)
      else s.(isLoading := false)
    case LoadFailed => ViewerState(false, true)
    case ReloadClicked => s
  }

  /** A sequence of events, in order. */
  function Run(s: ViewerState, events: seq<Event>): ViewerState
    decreases |events|
  {
    if events == [] then s else Run(Step(s, events[0]), events[1..])
  }

  lemma {:induction false} RunAppend(s: ViewerState, a: seq<Event>, b: seq<Event>)
    ensures Run(s, a + b) == Run(Run(s, a), b)
    decreases |a|
  {
    if a != [] {
      assert (a + b)[1..] == a[1..] + b;
      RunAppend(Step(s, a[0]), a[1..], b);
    } else {
      assert a + b == b;
    }
  }

  /** Whatever happened before a url change is forgotten: only the later events count. */
  lemma UrlChangeForgetsThePast(s: ViewerState, before: seq<Event>, after: seq<Event>)
    ensures Run(s, before + [UrlChanged] + after) == Run(Initial, after)
  {
    RunAppend(s, before + [UrlChanged], after);
    RunAppend(s, before, [UrlChanged]);
  }

  /** Once flagged, the error stays until the url changes. */
  lemma {:induction false} ErrorStaysUntilUrlChange(s: ViewerState, events: seq<Event>)
    requires s.iframeError
    requires forall i :: 0 <= i < |events| ==> events[i] != UrlChanged
    ensures Run(s, events).iframeError
    decreases |events|
  {
    if events != [] {
      ErrorStaysUntilUrlChange(Step(s, events[0]), events[1..]);
    }
  }

  /** The spinner and the error panel are never due at the same time. */
  predicate NotLoadingAndFailed(s: ViewerState)
  {
    !(s.isLoading && s.iframeError)
  }

  lemma {:induction false} RunKeepsNotLoadingAndFailed(s: ViewerState, events: seq<Event>)
    requires NotLoadingAndFailed(s)
    ensures NotLoadingAndFailed(Run(s, events))
    decreases |events|
  {
    if events != [] {
      RunKeepsNotLoadingAndFailed(Step(s, events[0]), events[1..]);
    }
  }

  /** A load or error event ends the loading phase, and reloads after it do not restart it. */
  lemma {:induction false} SettledAfterLoadOrError(s: ViewerState, events: seq<Event>, k: int)
    requires 0 <= k < |events| && (events[k].Loaded? || events[k] == LoadFailed)
    requires forall i :: k < i < |events| ==> events[i] == ReloadClicked
    ensures !Run(s, events).isLoading
    decreases k
  {
    if k == 0 {
      ReloadsChangeNothing(Step(s, events[0]), events[1..]);
    } else {
      SettledAfterLoadOrError(Step(s, events[0]), events[1..], k - 1);
    }
  }

  lemma {:induction false} ReloadsChangeNothing(s: ViewerState, events: seq<Event>)
    requires forall i :: 0 <= i < |events| ==> events[i] == ReloadClicked
    ensures Run(s, events) == s
    decreases |events|
  {
    if events != [] {
      ReloadsChangeNothing(s, events[1..]);
    }
  }

  /** What the viewer shows. */
  datatype View = View(
    backEnabled: bool,
    forwardEnabled: bool,
    reloadEnabled: bool,
    spinnerShown: bool,
    errorPanelShown: bool,
    iframeVisible: bool,
    iframeSrc: string,
    iframeTitle: string,
    addressBar: string)

  /** The component's output: nothing without a tab. */
  function Render(tab: Option<Tabs.Tab>, s: ViewerState): (v: Option<View>)
    ensures tab.None? <==> v.None?
    ensures v.Some? ==> !v.value.backEnabled && !v.value.forwardEnabled
    ensures v.Some? ==> (v.value.reloadEnabled <==> !s.isLoading)
    ensures v.Some? ==> (v.value.iframeVisible <==> !s.isLoading && !s.iframeError)
    ensures v.Some? ==> v.value.iframeSrc == tab.value.url && v.value.addressBar == tab.value.url
    ensures v.Some? ==> v.value.iframeTitle == tab.value.title
    ensures v.Some? ==> (v.value.spinnerShown <==> s.isLoading)
    ensures v.Some? ==> (v.value.errorPanelShown <==> s.iframeError)
  {
    match tab
    case None => None
    case Some(t) =>
      Some(View(
        backEnabled := false,
        forwardEnabled := false,
        reloadEnabled := !s.isLoading,
        spinnerShown := s.isLoading,
        errorPanelShown := s.iframeError,
        iframeVisible := !(s.isLoading || s.iframeError),
        iframeSrc := t.url,
        iframeTitle := t.title,
        addressBar := t.url))
  }

  /** The `src` that `reloadIframe` assigns: `tab?.url || ''`. */
  function ReloadSrc(tab: Option<Tabs.Tab>): (src: string)
    ensures tab.Some? ==> src == tab.value.url
    ensures tab.None? ==> src == ""
  {
    if tab.Some? && tab.value.url != "" then tab.value.url else ""
  }

  /** From the initial state, no event sequence shows the spinner and the error panel together. */
  lemma NeverSpinnerAndErrorTogether(tab: Tabs.Tab, events: seq<Event>)
    ensures var v := Render(Some(tab), Run(Initial, events)).value;
      !(v.spinnerShown && v.errorPanelShown)
  {
    RunKeepsNotLoadingAndFailed(Initial, events);
  }
}
