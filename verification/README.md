# SearchWise core, modelled in Dafny

SearchWise is a search front end. It sends queries to a custom-search API, shows web, image, news and video results, and opens result pages in an in-app viewer, a tab inside the application. Beside the viewer it keeps a list of open tabs, a search history and a settings record. This project models the decision rules and state transitions at its core as pure Dafny functions, and proves properties about them:

- the **frame-ability verdict**: whether a page may be shown inside a frame, decided from its `X-Frame-Options` header (RFC 7034, section 2.1) and the `frame-ancestors` directive of Content Security Policy Level 2 (section 7.7) (`FramePolicy`);
- **URL detection and normalisation** of what the user typed into the search box (`UrlHandler`);
- the **tab collection**: add-or-focus with url dedup, remove with reassignment of the active tab, clear, and lookup (`Tabs`);
- the **search history**: case-insensitive dedup, newest first, capped at 100 entries (`SearchHistory`);
- the two **settings records**: the current one, whose in-app-view switch also clears the "in-app friendly" filter, and the older one without that field (`Settings`, `LegacySettings`);
- the **viewer's load/error state machine** and what the viewer renders from it (`WebViewer`);
- the two **relative-time formatters**: the history panel's and the news card's (`HistoryTimeAgo`, `NewsTimeAgo`);
- the **video result card**, the **pager**, and the **server actions**: request parameters, error classification of the search API, the per-item fallback of the video search, and the page fetch (`VideoResult`, `Pagination`, `Actions`).

The JavaScript string operations these rules rely on live in `JsString`:

- `trim`, with the exact ECMAScript white-space and line-terminator set;
- `split` on one character;
- `startsWith` and `endsWith`;
- an ASCII `toLowerCase`.

Decimal rendering and parsing of integers live in `Decimal`.

Whatever the code reads from outside becomes a parameter of the function that models it. This covers:

- HTTP replies, modelled as datatypes of their possible outcomes;
- the clock;
- `nanoid()`;
- environment variables;
- what the video-extraction flow returns;
- what the browser reports about the frame.

## Model

| member | source | states |
|---|---|---|
| FramePolicy.CanBeIframed | src/ai/flows/can-be-iframed.ts:33-63 | A failed probe gives false. Otherwise the page is frame-able iff `X-Frame-Options` is not `deny`/`sameorigin` after lower-casing, and the CSP (when present) does not have a first `frame-ancestors` directive listing `'none'` or `'self'`. The CSP rule is an independent existential over the split directives. |
| FramePolicy.FindFrameAncestors | src/ai/flows/can-be-iframed.ts:47 | `find` returns nothing iff no directive's trimmed text starts with `frame-ancestors`; otherwise it returns the first such directive. |
| FramePolicy.FindFrameAncestorsFrom | src/ai/flows/can-be-iframed.ts:47 | The search from position k stops at the first matching directive at or after k, or reports that none from k on matches. |
| FramePolicy.XfoForbidsWins | src/ai/flows/can-be-iframed.ts:39-44 | A forbidding `X-Frame-Options` gives false, whatever the CSP. |
| FramePolicy.OtherXfoFallsThrough | src/ai/flows/can-be-iframed.ts:39-46 | Any other `X-Frame-Options` value gives the same verdict as no header, so the CSP alone decides. |
| FramePolicy.NoHeadersFramable | src/ai/flows/can-be-iframed.ts:57 | With both headers absent or empty, the page is frame-able. |
| FramePolicy.FirstDirectiveDecides | src/ai/flows/can-be-iframed.ts:47-53 | When directive i is the first `frame-ancestors` directive, the verdict is exactly "directive i lists neither `'none'` nor `'self'`". |
| FramePolicy.LaterDirectivesIgnored | src/ai/flows/can-be-iframed.ts:47 | Directives appended after the first `frame-ancestors` directive never change the verdict. |
| FramePolicy.XfoCaseInsensitive | src/ai/flows/can-be-iframed.ts:40-41 | Two `X-Frame-Options` values equal up to case give the same verdict, whatever the CSP. |
| FramePolicy.SingleDirective | src/ai/flows/can-be-iframed.ts:49-53 | For a policy that is one `frame-ancestors` directive over any list of plain tokens: framing is forbidden iff one token is exactly `'none'` or `'self'`. The match is case-sensitive. |
| UrlHandler.IsValidUrl | src/lib/url-handler.ts:4-27 | The empty query is invalid. After trimming, each of the three rules on its own makes a non-empty query valid: an `http://`/`https://` prefix, the TLD rule, or a `localhost:` prefix. A valid query satisfies one of the three. |
| UrlHandler.IsValidUrlMeaning | src/lib/url-handler.ts:4-27 | A query is valid iff it is non-empty and its trimmed text has a scheme, names a `localhost:` port, or has a `.` whose last following part, cut at its first `/`, is a listed TLD. |
| UrlHandler.TldRuleMeaning | src/lib/url-handler.ts:15-19 | The split-based TLD test holds iff the trimmed text has a `.` and the text after the last `.`, cut at its first `/`, is a listed TLD. |
| UrlHandler.VercelAppNeverMatches | src/lib/url-handler.ts:2-17 | The extracted last part is never `vercel.app`, so that list entry is dead. |
| UrlHandler.NormalizeUrl | src/lib/url-handler.ts:29-39 | The output always has an `http://`/`https://` scheme. A prefixed trimmed input is returned unchanged. `localhost:` gets `http://`; anything else gets `https://`. |
| JsString.TrimStartDrops | src/lib/url-handler.ts:7 | The first step of `trim` keeps a suffix of the query, and every character it drops before that suffix is ECMAScript white space. |
| JsString.TrimEndDrops | src/lib/url-handler.ts:7 | The second step of `trim` keeps a prefix, and every character it drops after that prefix is ECMAScript white space. |
| UrlHandler.NormalizedIsTrimmed | src/lib/url-handler.ts:30-38 | A normalised URL has no leading or trailing white space. |
| UrlHandler.PrefixedIsTrimmed | src/lib/url-handler.ts:33-35 | A scheme followed by trimmed text is its own trim. |
| UrlHandler.NormalizeIdempotent | src/lib/url-handler.ts:29-39 | Normalising twice equals normalising once. |
| UrlHandler.NormalizedIsValid | src/lib/url-handler.ts:4-39 | Every normalised URL passes `isValidUrl`. |
| Tabs.FindByUrl | src/hooks/use-tabs.ts:44 | Returns nothing iff no tab has the url; otherwise returns the first tab with it. |
| Tabs.GetTabById | src/hooks/use-tabs.ts:74-76 | Returns nothing iff no tab has the id; otherwise returns the first tab with it. |
| Tabs.AddTab | src/hooks/use-tabs.ts:42-57 | A url already open leaves the tabs unchanged and activates its first tab. A new url appends exactly one tab at the end, with the fresh id and the title (or the url when the title is empty), and activates it. |
| Tabs.Without | src/hooks/use-tabs.ts:61 | A tab is kept iff it was present and its id differs from the removed one. |
| Tabs.RemoveTab | src/hooks/use-tabs.ts:59-67 | The tabs become the filtered list. The active id is kept unless it was the removed one. If it was, the last remaining tab becomes active, or none when no tab is left or when that tab's id is empty (`|| null`). |
| Tabs.ClearAllTabs | src/hooks/use-tabs.ts:69-72 | No tabs and no active tab. |
| Tabs.WithoutAppend | src/hooks/use-tabs.ts:61 | Removal distributes over concatenation, so the kept tabs stay in their relative order. |
| Tabs.WithoutAbsent | src/hooks/use-tabs.ts:61 | Removing an id no tab carries changes nothing. |
| Tabs.AddTabKeepsUrlsDistinct | src/hooks/use-tabs.ts:44-56 | If urls are pairwise distinct before `addTab`, they stay distinct. |
| Tabs.AddTabKeepsIdsDistinct | src/hooks/use-tabs.ts:50-56 | With a fresh id, distinct ids stay distinct. |
| Tabs.WithoutKeepsUrlsDistinct | src/hooks/use-tabs.ts:61 | Removal keeps urls distinct. |
| Tabs.AddTabKeepsActiveOpen | src/hooks/use-tabs.ts:42-57 | After `addTab`, the active id belongs to an open tab. |
| Tabs.RemoveTabKeepsActiveOpen | src/hooks/use-tabs.ts:59-67 | If the active id belonged to an open tab, it still does after `removeTab`, or nothing is active. |
| Tabs.RemovedIdNotActive | src/hooks/use-tabs.ts:62-64 | After removing an id, that id is not active. |
| SearchHistory.Others | src/hooks/use-history.ts:24 | An entry is kept iff it was present and its query differs up to case. |
| SearchHistory.AddToHistory | src/hooks/use-history.ts:20-32 | With saving off, nothing changes. Otherwise the new entry comes first, followed by the longest prefix of the kept older entries, in order, that fits within 100 entries. |
| SearchHistory.ClearHistory | src/hooks/use-history.ts:34-36 | The history becomes empty. |
| SearchHistory.OthersHaveNoneSame | src/hooks/use-history.ts:24 | No kept entry matches the added query up to case. |
| SearchHistory.ExactlyOneMatch | src/hooks/use-history.ts:24-30 | After adding a query, exactly one entry matches it up to case. |
| SearchHistory.OthersAppend | src/hooks/use-history.ts:24 | The filter distributes over concatenation, so older entries keep their relative order. |
| Settings.Flip | src/hooks/use-settings.ts:37 | Light and dark swap. |
| Settings.ToggleTheme | src/hooks/use-settings.ts:36-38 | The theme changes and nothing else does. |
| Settings.SetSafeSearch | src/hooks/use-settings.ts:40-42 | Sets its own field and nothing else. |
| Settings.SetInAppWebView | src/hooks/use-settings.ts:44-52 | Sets `inAppWebView`. Switching it off also clears `filterInAppFriendly`; switching it on keeps that field. No other field changes. |
| Settings.SetSaveHistory | src/hooks/use-settings.ts:54-56 | Sets its own field and nothing else. |
| Settings.SetFilterInAppFriendly | src/hooks/use-settings.ts:58-60 | Sets its own field and nothing else. |
| Settings.ToggleThemeInvolution | src/hooks/use-settings.ts:36-38 | Toggling twice is the identity. |
| Settings.CouplingPreserved | src/hooks/use-settings.ts:7-60 | The defaults and every setter keep "filter on implies in-app view on", except turning the filter on directly while the view is off. |
| LegacySettings.ToggleTheme | src/hooks/use-settings.tsx:33-35 | The theme changes and nothing else does. |
| LegacySettings.SetSafeSearch | src/hooks/use-settings.tsx:37-39 | Sets its own field and nothing else. |
| LegacySettings.SetInAppWebView | src/hooks/use-settings.tsx:41-43 | Sets only `inAppWebView`, with no coupling. |
| LegacySettings.SetSaveHistory | src/hooks/use-settings.tsx:45-47 | Sets its own field and nothing else. |
| LegacySettings.ToggleThemeInvolution | src/hooks/use-settings.tsx:33-35 | Toggling twice is the identity. |
| LegacySettings.ModulesAgreeExceptCoupling | src/hooks/use-settings.tsx:33-47 | Against the current module, the older setters agree on every field they share. The exception is switching the in-app view off: the current module then also clears the filter. |
| LegacySettings.DefaultsAgree | src/hooks/use-settings.tsx:7-12 | The older defaults match the current ones on the four shared fields, and have no filter field. |
| WebViewer.Step | src/components/web-viewer.tsx:28-62 | A url change resets the viewer to loading with no error. A load ends loading, and flags an error iff the frame shows `about:blank` or cannot be inspected (otherwise the error is kept). A frame error ends loading and flags an error. A reload changes nothing. |
| WebViewer.UrlChangeForgetsThePast | src/components/web-viewer.tsx:28-31 | After a url change, the state depends only on the events that follow it. |
| WebViewer.ErrorStaysUntilUrlChange | src/components/web-viewer.tsx:35-52 | Once flagged, the error stays until the url changes. |
| WebViewer.RunKeepsNotLoadingAndFailed | src/components/web-viewer.tsx:28-52 | Every event sequence keeps "not loading and failed at once". |
| WebViewer.SettledAfterLoadOrError | src/components/web-viewer.tsx:21-52 | After a load or error event followed only by reloads, the viewer is not loading. |
| WebViewer.ReloadsChangeNothing | src/components/web-viewer.tsx:21-26 | Reloads leave both flags unchanged. |
| WebViewer.Render | src/components/web-viewer.tsx:64-108 | Nothing is rendered iff there is no tab. Back and forward are always disabled. Reload is enabled iff not loading. The frame is visible iff not loading and no error. The frame and the address bar show the tab's url, and the frame is titled with the tab's title. The spinner is shown iff loading, and the error panel iff the frame failed. |
| WebViewer.ReloadSrc | src/components/web-viewer.tsx:21-26 | A reload reassigns the tab's url, or the empty string without a tab. |
| WebViewer.NeverSpinnerAndErrorTogether | src/components/web-viewer.tsx:88-100 | From the initial state, the spinner and the error panel are never shown together. |
| HistoryTimeAgo.Classify | src/components/panels/history-panel.tsx:22-34 | The buckets are decided by ranges of floor((now - ts)/1000), taken on exact integers (see "## Left out" for where the code's doubles round): below 60 is "just now", below 3600 minutes, below 86400 hours, else days. The counts lie in 1..59, 1..23 and ≥ 1 and equal floor-divisions of the seconds. A timestamp outside the `Date` range gives the invalid bucket, whose days count is `NaN`. |
| HistoryTimeAgo.MinutesToHours | src/components/panels/history-panel.tsx:28-30 | Flooring seconds to minutes and then to hours equals flooring seconds to hours. |
| HistoryTimeAgo.HoursToDays | src/components/panels/history-panel.tsx:30-32 | Flooring hours to days equals flooring seconds to days. |
| HistoryTimeAgo.Render | src/components/panels/history-panel.tsx:27-33 | The text is `Just now` exactly for the just-now bucket and `NaNd ago` exactly for an invalid timestamp. The minute, hour and day texts are the canonical decimal count followed by `m ago`, `h ago` and `d ago`, and the count parses back from it. |
| Decimal.NatToDecimalInjective | src/components/panels/history-panel.tsx:29-33 | Different counts render as different digit texts, so two different elapsed counts never show the same text. |
| Decimal.WithSuffix | src/components/panels/history-panel.tsx:29-33 | A count interpolated before a unit text ends in that text, what precedes it is the count's canonical decimal text (no leading zeros), and the count parses back from it. |
| HistoryTimeAgo.GetTimeAgo | src/components/panels/history-panel.tsx:22-34 | The text is `NaNd ago` iff the timestamp is outside the `Date` range. Otherwise, with s = floor((now - ts)/1000): the text is `Just now` iff s < 60; below 3600 it shows floor(s/60) before `m ago`, below 86400 floor(s/3600) before `h ago`, and beyond that floor(s/86400) before `d ago`, each count in canonical decimal that parses back. |
| HistoryTimeAgo.FutureIsJustNow | src/components/panels/history-panel.tsx:25-27 | A timestamp in the future reads "Just now". |
| NewsTimeAgo.Bucket | src/components/results/news-result.tsx:16-28 | Each unit is chosen iff the seconds exceed it strictly and do not exceed the next unit. The count c satisfies c·unit ≤ seconds < (c+1)·unit, with c ≥ 1. Anything ≤ 60, including negatives, stays in seconds unchanged. |
| NewsTimeAgo.Classify | src/components/results/news-result.tsx:12-28 | A missing or empty date, and only such a date, gives the no-date bucket. An unparsable date gives the invalid bucket, whose seconds count is `NaN`. Otherwise the elapsed whole seconds are bucketed. |
| NewsTimeAgo.Render | src/components/results/news-result.tsx:13-28 | The text is empty iff there is no date, and `NaN seconds ago` exactly for an unparsable date. Every unit's text is the canonical decimal count followed by its ` <unit> ago` suffix, and the count, negative seconds included, parses back from it. |
| NewsTimeAgo.ExactlyOneYearIsMonths | src/components/results/news-result.tsx:18-21 | Exactly one year reads as 12 months; one second more reads as 1 year. |
| NewsTimeAgo.BucketMonotone | src/components/results/news-result.tsx:18-28 | More elapsed time never picks a smaller unit. |
| VideoResult.FirstThumbnailSrc | src/components/results/video-result.tsx:14 | A thumbnail is found iff the item has a non-empty thumbnail list, and then it is the first thumbnail's `src`. |
| VideoResult.ImageUrl | src/components/results/video-result.tsx:14 | The image is the cover when it is non-empty, else the first thumbnail. |
| VideoResult.ClickTarget | src/components/results/video-result.tsx:19-23 | A click opens `videoUrl` when the link is direct, else the item's link. The title passes through unchanged. |
| VideoResult.ClickOpensMediaOrPage | src/components/results/video-result.tsx:17-22 | The opened url is the result's page, or a `videoUrl` that ends in `.mp4`, `.webm` or `.ogg`. |
| VideoResult.UpperCaseSuffixIsNotDirect | src/components/results/video-result.tsx:17 | The suffix test is case-sensitive: `.MP4` is not direct, `.mp4` is. |
| Pagination.Buttons | src/components/pagination.tsx:23-35 | Previous is enabled iff the page is above 1. Next is enabled iff there is a next page. |
| Pagination.PreviousClick | src/components/pagination.tsx:23-28 | A click requests a page only when Previous is enabled; it is then the previous page, never below 1. |
| Pagination.NextClick | src/components/pagination.tsx:30-35 | A click requests the next page exactly when there is one. |
| Pagination.NextThenPrevious | src/components/pagination.tsx:24-31 | Next followed by Previous returns to the starting page. |
| Pagination.PagesStayPositive | src/components/pagination.tsx:24-32 | From a page ≥ 1, no click requests a page below 1. |
| Actions.EnvOr | src/app/actions.ts:6-7 | An unset or empty variable falls back to the default. |
| Actions.Configure | src/app/actions.ts:6-7 | The key is the key variable when it is set and non-empty, else `YOUR_API_KEY_HERE`. The cx id is the cx variable when it is set and non-empty, else `b7d5b202df7604a20`. |
| Actions.MissingKeyIsPlaceholder | src/app/actions.ts:6-19 | The actions have no key iff the key variable is unset, empty, or the placeholder itself. |
| Actions.StartIndexSteps | src/app/actions.ts:45 | Page 1 starts at result 1. Each page starts 10 results after the previous one. Pages ≥ 1 start at ≥ 1. |
| Actions.PagesTile | src/app/actions.ts:45 | Every result number ≥ 1 falls in the ten-result window of exactly one page ≥ 1. |
| Actions.Params | src/app/actions.ts:41-74 | The parameter names of a search request are pairwise distinct. |
| Actions.ParamsCarry | src/app/actions.ts:41-48 | The request carries the key, cx, query, safe level and `hl=en` under their names. |
| Actions.ParamsByKind | src/app/actions.ts:52-75 | `searchType=image` is present iff it is the image search. `sort=date` is present iff it is the news search. |
| Actions.StartReadsBack | src/app/actions.ts:45 | The `start` parameter is the decimal text of the start index, and parses back to it. |
| Actions.CaughtSearchError | src/app/actions.ts:31-37 | A thrown `Error` gives its message; anything else gives the fixed unknown-error text. |
| Actions.FetchFromApi | src/app/actions.ts:16-38 | The placeholder key gives `NO_API_KEY` and makes no request. Data is returned iff the reply is ok and its body parses. A thrown fetch, or a body read that throws, gives the caught error's message, or the fixed unknown-error text for a non-`Error` value. A failed reply without an `error` member gives the `TypeError`'s message. Error code 429 gives `API_QUOTA_EXCEEDED`, which otherwise appears only as the reply's own message. Any other `error` gives its message when non-empty, else the default text. Every error text is either a fixed text or a message the reply carries. |
| Actions.ApiMessagePassesThrough | src/app/actions.ts:22-29 | A non-429 API error reports its own message, or the default message when that is empty. |
| Actions.Search | src/app/actions.ts:40-76 | The outcome is `fetchFromApi` on the kind's parameters and the reply, so every `FetchFromApi` clause holds of it. In particular, no key gives `NO_API_KEY` without a request; data is returned iff there is a key and the ok reply's body parses, and it is that body; code 429 gives `API_QUOTA_EXCEEDED`. |
| Actions.SearchRequest | src/app/actions.ts:41-75 | With a key, the request reads back `key`, `cx`, `q`, `start` = decimal text of (page-1)·10+1, `safe` and `hl=en`. It has `searchType=image` exactly for the image search and `sort=date` exactly for the news search, and neither otherwise. |
| Actions.Enrich | src/app/actions.ts:90-113 | Each item keeps its search fields. It gains the extracted fields only when fetching, reading and extraction all succeed; otherwise it is returned unchanged. |
| Actions.SearchVideos | src/app/actions.ts:79-118 | The request is the web search's. Errors pass through unchanged. Missing items give an empty list. Otherwise the output has the same count and order, and item i is item i enriched by its own fetch. |
| Actions.VideoQuerySent | src/app/actions.ts:80 | The query sent is the user's query followed by " video". |
| Actions.VideoResultsKeepWebResults | src/app/actions.ts:86-117 | The video results are the web results in the same count and order; an item whose page failed is unchanged. |
| Actions.FetchPageContent | src/app/actions.ts:120-139 | Content is returned iff the status is 2xx and the body is read. A non-2xx status gives the status-failure text. A thrown fetch or a 2xx body read that throws is caught: an `Error` gives its message; any other thrown value gives the fixed unknown-error text. |
| Actions.CaughtPageError | src/app/actions.ts:132-137 | A thrown `Error` gives its message; anything else gives the fixed unknown-error text. |
| Actions.PageStatusReadsBack | src/app/actions.ts:127-129 | The error text of a non-2xx fetch is the fixed prefix followed by the status, which parses back to the status. |

## Left out

- Network I/O. The HEAD probe, the search requests, the per-item page fetches and the page fetch are not modelled as transport. Each function receives the reply as a datatype of outcomes instead.
- Persistence. The IndexedDB store of the tabs and the `localStorage` of the history and settings are browser storage outside the model. The load/save effects of the tab provider are left out with them.
- The LLM flows: video-data extraction and image search terms. Their output is a parameter (`Actions.ItemFetch`).
- UI files and presentation:
  - the favicon helper, a thin wrapper over the URL parser;
  - the dialogs, panels and result cards beyond the rules above;
  - the theme class written to the document.
- `nanoid()`, `Date.now()`, `new Date(string)` parsing and `window.open` are nondeterministic or foreign. The fresh tab id, the clock readings and the parsed date are parameters.
- The HTML-rewriting proxy route, which rewrites links, injects a `<base>` and strips the framing headers. The viewer does not use it: it frames the tab's url directly (src/components/web-viewer.tsx:103), and its back/forward buttons are always disabled (src/components/web-viewer.tsx:73-78).
- The URL encoding done by `URLSearchParams` when the query string is serialised. The request is modelled as its list of name/value pairs.
- Actions.SearchVideos: an ok reply whose JSON body itself has an `error` member would be passed on as an error by the code. The model treats every parsed ok body as data.
- Tabs.AddTab: the duplicate lookup reads `tabs` from the render that created the callback, while the append uses the current list. Two additions in one render could both append the same url; the model reads the current state.
- Tabs.RemoveTab: the callback reads `activeTab` from the render that created it. Two removals in one render would see a stale active id; the model reads the current state.
- JsString.ToLower: case folding is ASCII only, while the code uses full Unicode `toLowerCase`. The history's dedup therefore treats two queries that differ only in the case of non-ASCII letters as different. For the `X-Frame-Options` comparison the ASCII folding is exact, because no non-ASCII character lower-cases to the plain ASCII letters of `deny` or `sameorigin`.
- Decimal.IntToDecimal: JavaScript switches to exponent notation at 10^21. Page numbers and statuses of that size are not modelled in that notation.
- HistoryTimeAgo.Classify: `now` is required to be a valid `Date` time value, as the clock always gives one. Time values are whole milliseconds, as `Date.now()` gives them. The difference `now - ts` and its quotient by 1000 are taken exactly. The code computes them in doubles, and once |now - ts| exceeds 2^53 ms the subtraction rounds, which can move the count by one. For example, now = 8640000000000000 with ts = -367416259199999 gives 104252503 days in the code and 104252502 in the model. With a valid timestamp this needs a clock after about the year 13606. Up to 2^53 ms the subtraction is exact, and the rounded quotient by 1000 has the same floor, so the model agrees there.
- HistoryTimeAgo.GetTimeAgo: its counts come from `HistoryTimeAgo.Classify` and carry the same exact-integer arithmetic beyond 2^53 ms of difference.
- NewsTimeAgo.Classify: the seconds are floor((nowMs - parsedMs)/1000) on exact integers, where the code subtracts doubles. Beyond 2^53 ms of difference the code rounds. For example, nowMs = 8640000000000000 with parsedMs = -367217711999999 gives 285617 years in the code and 285616 in the model. Any parsed date needs a clock after about the year 13606 for this.
- Tabs.SetActiveTab and LegacySettings.SetSettings: they are plain state setters, exposed as is, and carry no contract.
- WebViewer.Render: the error panel shows the host name from `new URL(tab.url)`, which throws for a url the URL parser rejects. The model renders the panel as a flag and does not model that parser.
- The engine's wording of the `TypeError` thrown when a failed reply has no `error` member is a parameter (`Actions.ErrorBody`).
