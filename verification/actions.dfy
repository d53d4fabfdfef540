/**
  The server actions: the three search requests to the custom-search API, the video search
  that enriches each web result with data extracted from its page, and the page fetch used
  by the viewer. The network, the environment and the extraction flow are parameters: each
  call is given the reply it receives.
 */
module Actions {
  import opened Wrappers
  import opened SearchTypes
  import Decimal

  const PlaceholderKey: string := "YOUR_API_KEY_HERE"
  const DefaultCx: string := "b7d5b202df7604a20"

  const NoApiKey: string := "NO_API_KEY"
  const QuotaExceeded: string := "API_QUOTA_EXCEEDED"
  const QuotaCode: int := 429
  const DefaultApiError: string := "An error occurred with the search API."
  const UnknownSearchError: string := "An unknown error occurred while fetching search results."
  const UnknownPageError: string := "An unknown error occurred while fetching page content."
  const PageStatusPrefix: string := "Failed to fetch page. Status: "

  /** `process.env.NAME || fallback`: an unset or empty variable falls back. */
  function EnvOr(env: Option<string>, fallback: string): (v: string)
    ensures env.Some? && env.value != "" ==> v == env.value
    ensures env.None? || env.value == "" ==> v == fallback
  {
    if env.Some? && env.value != "" then env.value else fallback
  }

  /** The module-level constants read from the environment. */
  datatype Config = Config(apiKey: string, cx: string)

  function Configure(keyEnv: Option<string>, cxEnv: Option<string>): (c: Config)
    ensures keyEnv.Some? && keyEnv.value != "" ==> c.apiKey == keyEnv.value
    ensures keyEnv.None? || keyEnv.value == "" ==> c.apiKey == PlaceholderKey
    ensures cxEnv.Some? && cxEnv.value != "" ==> c.cx == cxEnv.value
    ensures cxEnv.None? || cxEnv.value == "" ==> c.cx == DefaultCx
  {
    Config(EnvOr(keyEnv, PlaceholderKey), EnvOr(cxEnv, DefaultCx))
  }

  /** An unset or empty key, or the placeholder itself, leaves the actions without a key. */
  lemma MissingKeyIsPlaceholder(keyEnv: Option<string>, cxEnv: Option<string>)
    ensures Configure(keyEnv, cxEnv).apiKey == PlaceholderKey <==>
      keyEnv.None? || keyEnv.value == "" || keyEnv.value == PlaceholderKey
  {
  }

  datatype Safe = Active | Off

  function SafeValue(s: Safe): string
  {
    match s
    case Active => "active"
    case Off => "off"
  }

  // ---------------------------------------------------------------------------------------
  // Request parameters
  // ---------------------------------------------------------------------------------------

  /** The 1-based index of the first result of `page`, ten results per page. */
  function StartIndex(page: int): int
  {
    (page - 1) * 10 + 1
  }

  /** The page that holds result number `n`. */
  function PageOf(n: int): int
  {
    (n - 1) / 10 + 1
  }

  /** Page 1 starts at result 1, and each page starts ten results after the previous one. */
  lemma StartIndexSteps(page: int)
    ensures StartIndex(1) == 1
    ensures StartIndex(page + 1) == StartIndex(page) + 10
    ensures page >= 1 ==> StartIndex(page) >= 1
  {
  }

  /** Pages tile the results: every result number belongs to exactly one page's window of ten. */
  lemma PagesTile(n: int, page: int)
    requires n >= 1
    ensures PageOf(n) >= 1
    ensures StartIndex(PageOf(n)) <= n < StartIndex(PageOf(n)) + 10
    ensures StartIndex(page) <= n < StartIndex(page) + 10 ==> page == PageOf(n)
  {
    var q := (n - 1) / 10;
    assert n - 1 == 10 * q + (n - 1) % 10;
  }

  datatype SearchKind = Web | Images | News

  type Param = (string, string)

  /** `URLSearchParams.get(name)`: the first value under `name`. */
  function Lookup(ps: seq<Param>, name: string): (v: Option<string>)
    ensures v.None? <==> forall i :: 0 <= i < |ps| ==> ps[i].0 != name
    ensures v.Some? ==> exists i :: 0 <= i < |ps| && ps[i] == (name, v.value)
  {
    if ps == [] then None
    else if ps[0].0 == name then Some(ps[0].1)
    else Lookup(ps[1..], name)
  }

  predicate NamesDistinct(ps: seq<Param>)
  {
    forall i, j :: 0 <= i < j < |ps| ==> ps[i].0 != ps[j].0
  }

  /** When no earlier parameter has the same name, the value under a name is the one stored at its position. */
  lemma {:induction false} LookupAt(ps: seq<Param>, i: nat)
    requires i < |ps| && forall j :: 0 <= j < i ==> ps[j].0 != ps[i].0
    ensures Lookup(ps, ps[i].0) == Some(ps[i].1)
  {
    if i > 0 {
      assert ps[0].0 != ps[i].0;
      assert ps[1..][i - 1] == ps[i];
      LookupAt(ps[1..], i - 1);
    }
  }

  /** Looking a name up in a concatenation: the first list's value, or else the second's. */
  lemma {:induction false} LookupAppend(p: seq<Param>, q: seq<Param>, name: string)
    ensures Lookup(p + q, name) == if Lookup(p, name).Some? then Lookup(p, name) else Lookup(q, name)
  {
    if p != [] {
      assert (p + q)[1..] == p[1..] + q;
      LookupAppend(p[1..], q, name);
    } else {
      assert p + q == q;
    }
  }

  /** The parameters every search sends, in insertion order. */
  function CommonParams(config: Config, query: string, page: int, safe: Safe): seq<Param>
  {
    [("key", config.apiKey), ("cx", config.cx), ("q", query),
     ("start", Decimal.IntToDecimal(StartIndex(page))), ("safe", SafeValue(safe)), ("hl", "en")]
  }

  /** The parameter that selects the kind of search, appended after the common ones. */
  function KindParams(kind: SearchKind): seq<Param>
  {
    match kind
    case Web => []
    case Images => [("searchType", "image")]
    case News => [("sort", "date")]
  }

  /** The query string of `search`, `searchImages` and `searchNews`, in insertion order. */
  function Params(kind: SearchKind, config: Config, query: string, page: int, safe: Safe): (ps: seq<Param>)
    ensures NamesDistinct(ps)
  {
    CommonParams(config, query, page, safe) + KindParams(kind)
  }

  /** What every search request carries, read back by name. */
  lemma ParamsCarry(kind: SearchKind, config: Config, query: string, page: int, safe: Safe)
    ensures var ps := Params(kind, config, query, page, safe);
      && Lookup(ps, "key") == Some(config.apiKey)
      && Lookup(ps, "cx") == Some(config.cx)
      && Lookup(ps, "q") == Some(query)
      && Lookup(ps, "safe") == Some(SafeValue(safe))
      && Lookup(ps, "hl") == Some("en")
  {
    var common := CommonParams(config, query, page, safe);
    var extra := KindParams(kind);
    CommonAt(config, query, page, safe, 0);
    CommonAt(config, query, page, safe, 1);
    CommonAt(config, query, page, safe, 2);
    CommonAt(config, query, page, safe, 4);
    CommonAt(config, query, page, safe, 5);
    LookupAppend(common, extra, "key");
    LookupAppend(common, extra, "cx");
    LookupAppend(common, extra, "q");
    LookupAppend(common, extra, "safe");
    LookupAppend(common, extra, "hl");
  }

  /** Each common parameter reads back by its name. */
  lemma CommonAt(config: Config, query: string, page: int, safe: Safe, i: nat)
    requires i < 6
    ensures var common := CommonParams(config, query, page, safe);
      Lookup(common, common[i].0) == Some(common[i].1)
  {
    LookupAt(CommonParams(config, query, page, safe), i);
  }

  /** Only the image search asks for images, and only the news search sorts by date. */
  lemma ParamsByKind(kind: SearchKind, config: Config, query: string, page: int, safe: Safe)
    ensures var ps := Params(kind, config, query, page, safe);
      && (kind == Images <==> Lookup(ps, "searchType") == Some("image"))
      && (kind != Images <==> Lookup(ps, "searchType").None?)
      && (kind == News <==> Lookup(ps, "sort") == Some("date"))
      && (kind != News <==> Lookup(ps, "sort").None?)
  {
    var common := CommonParams(config, query, page, safe);
    var extra := KindParams(kind);
    assert Lookup(common, "searchType").None? && Lookup(common, "sort").None?;
    LookupAppend(common, extra, "searchType");
    LookupAppend(common, extra, "sort");
  }

  /** The `start` parameter is the decimal text of the page's first result index. */
  lemma StartReadsBack(kind: SearchKind, config: Config, query: string, page: int, safe: Safe)
    ensures var start := Lookup(Params(kind, config, query, page, safe), "start");
      start == Some(Decimal.IntToDecimal(StartIndex(page)))
    ensures Decimal.ParseInt(Decimal.IntToDecimal(StartIndex(page))) == StartIndex(page)
  {
    var common := CommonParams(config, query, page, safe);
    LookupAt(common, 3);
    LookupAppend(common, KindParams(kind), "start");
    Decimal.IntRoundTrip(StartIndex(page));
  }

  // ---------------------------------------------------------------------------------------
  // fetchFromApi
  // ---------------------------------------------------------------------------------------

  /** A thrown value: an `Error` instance with its message, or anything else. */
  datatype Thrown = ErrorObject(message: string) | OtherValue

  /** A body read: parsed or read as text, or the read threw. */
  datatype Body<T> = Read(value: T) | Unreadable(cause: Thrown)

  /**
    The parsed body of a failed request. Without an `error` member (or with a null one),
    reading `errorData.error.code` throws a `TypeError`, whose message the engine words.
   */
  datatype ErrorBody =
    | NoErrorMember(typeErrorMessage: string)
    | ErrorMember(code: Option<int>, message: Option<string>)

  /** What `fetch` produces: a thrown failure, a response with `ok` set, or one without. */
  datatype ApiReply<T> =
    | NetworkFailure(cause: Thrown)
    | Ok(body: Body<T>)
    | NotOk(errorBody: Body<ErrorBody>)

  /** The value an action resolves to: the API's payload or `{ error }`. */
  datatype ApiResult<T> = Data(value: T) | ApiError(error: string)

  /** The request an action made (none when it had no key) and what it resolved to. */
  datatype Outcome<T> = Outcome(request: Option<seq<Param>>, result: ApiResult<T>)

  /** The `catch` of `fetchFromApi`. */
  function CaughtSearchError(t: Thrown): (error: string)
    ensures t.ErrorObject? ==> error == t.message
    ensures t.OtherValue? ==> error == UnknownSearchError
  {
    match t
    case ErrorObject(m) => m
    case OtherValue => UnknownSearchError
  }

  /** Every text a reply carries that could become an error message. */
  ghost predicate MessageOf<T>(reply: ApiReply<T>, m: string)
  {
    match reply
    case NetworkFailure(t) => t == ErrorObject(m)
    case Ok(b) => b == Unreadable(ErrorObject(m))
    case NotOk(b) =>
      || b == Unreadable(ErrorObject(m))
      || b == Read(NoErrorMember(m))
      || (b.Read? && b.value.ErrorMember? && b.value.message == Some(m))
  }

  function FetchFromApi<T>(config: Config, params: seq<Param>, reply: ApiReply<T>): (o: Outcome<T>)
    ensures config.apiKey == PlaceholderKey ==> o == Outcome(None, ApiError(NoApiKey))
    ensures config.apiKey != PlaceholderKey ==> o.request == Some(params)
    ensures o.result.Data? <==> config.apiKey != PlaceholderKey && reply.Ok? && reply.body.Read?
    ensures o.result.Data? ==> o.result.value == reply.body.value
    ensures o.result.ApiError? ==>
      o.result.error in {NoApiKey, QuotaExceeded, DefaultApiError, UnknownSearchError} || MessageOf(reply, o.result.error)
    ensures o.result == ApiError(NoApiKey) && config.apiKey != PlaceholderKey ==> MessageOf(reply, NoApiKey)
    ensures config.apiKey != PlaceholderKey && reply.NetworkFailure? ==>
      o.result == ApiError(CaughtSearchError(reply.cause))
    ensures config.apiKey != PlaceholderKey && reply.Ok? && reply.body.Unreadable? ==>
      o.result == ApiError(CaughtSearchError(reply.body.cause))
    ensures config.apiKey != PlaceholderKey && reply.NotOk? && reply.errorBody.Unreadable? ==>
      o.result == ApiError(CaughtSearchError(reply.errorBody.cause))
    ensures config.apiKey != PlaceholderKey && reply.NotOk? && reply.errorBody.Read? && reply.errorBody.value.NoErrorMember? ==>
      o.result == ApiError(reply.errorBody.value.typeErrorMessage)
    ensures config.apiKey != PlaceholderKey && reply.NotOk? && reply.errorBody.Read? && reply.errorBody.value.ErrorMember? ==>
      var e := reply.errorBody.value;
      && (e.code == Some(QuotaCode) ==> o.result == ApiError(QuotaExceeded))
      && (o.result == ApiError(QuotaExceeded) ==> e.code == Some(QuotaCode) || e.message == Some(QuotaExceeded))
      && (e.code != Some(QuotaCode) && e.message.Some? && e.message.value != "" ==> o.result == ApiError(e.message.value))
      && (e.code != Some(QuotaCode) && (e.message.None? || e.message == Some("")) ==> o.result == ApiError(DefaultApiError))
  {
    if config.apiKey == PlaceholderKey then Outcome(None, ApiError(NoApiKey))
    else
      var result := match reply
        case NetworkFailure(t) => ApiError(CaughtSearchError(t))
        case Ok(Read(v)) => Data(v)
        case Ok(Unreadable(t)) => ApiError(CaughtSearchError(t))
        case NotOk(Unreadable(t)) => ApiError(CaughtSearchError(t))
        case NotOk(Read(NoErrorMember(m))) => ApiError(m)
        case NotOk(Read(ErrorMember(code, message))) =>
          if code == Some(QuotaCode) then ApiError(QuotaExceeded)
          else ApiError(if message.Some? && message.value != "" then message.value else DefaultApiError);
      Outcome(Some(params), result)
  }

  /** A failed request whose error names a message reports that message, or the default when it is empty. */
  lemma ApiMessagePassesThrough<T>(config: Config, params: seq<Param>, code: Option<int>, message: string)
    requires config.apiKey != PlaceholderKey && code != Some(QuotaCode)
    ensures var r := FetchFromApi<T>(config, params, NotOk(Read(ErrorMember(code, Some(message))))).result;
      r == ApiError(if message == "" then DefaultApiError else message)
  {
  }

  /**
    `search`, `searchImages` and `searchNews`: `fetchFromApi` on the parameters of the search
    kind, so every property of `FetchFromApi` holds of the outcome.
   */
  function Search<T>(kind: SearchKind, config: Config, query: string, page: int, safe: Safe, reply: ApiReply<T>): (o: Outcome<T>)
    ensures o == FetchFromApi(config, Params(kind, config, query, page, safe), reply)
    ensures config.apiKey == PlaceholderKey ==> o == Outcome(None, ApiError(NoApiKey))
    ensures o.result.Data? <==> config.apiKey != PlaceholderKey && reply.Ok? && reply.body.Read?
    ensures o.result.Data? ==> o.result.value == reply.body.value
    ensures config.apiKey != PlaceholderKey && reply.NotOk? && reply.errorBody.Read? &&
            reply.errorBody.value.ErrorMember? && reply.errorBody.value.code == Some(QuotaCode) ==>
      o.result == ApiError(QuotaExceeded)
    ensures o.request.Some? <==> config.apiKey != PlaceholderKey
  {
    FetchFromApi(config, Params(kind, config, query, page, safe), reply)
  }

  /** The request a search makes carries every parameter of its kind, read back by name. */
  lemma SearchRequest<T>(kind: SearchKind, config: Config, query: string, page: int, safe: Safe, reply: ApiReply<T>)
    requires config.apiKey != PlaceholderKey
    ensures var o := Search(kind, config, query, page, safe, reply);
      && o.request.Some?
      && var ps := o.request.value;
      && Lookup(ps, "key") == Some(config.apiKey)
      && Lookup(ps, "cx") == Some(config.cx)
      && Lookup(ps, "q") == Some(query)
      && Lookup(ps, "start") == Some(Decimal.IntToDecimal(StartIndex(page)))
      && Lookup(ps, "safe") == Some(SafeValue(safe))
      && Lookup(ps, "hl") == Some("en")
      && (Lookup(ps, "searchType") == if kind == Images then Some("image") else None)
      && (Lookup(ps, "sort") == if kind == News then Some("date") else None)
  {
    assert Search(kind, config, query, page, safe, reply).request == Some(Params(kind, config, query, page, safe));
    ParamsCarry(kind, config, query, page, safe);
    ParamsByKind(kind, config, query, page, safe);
    StartReadsBack(kind, config, query, page, safe);
  }

  // ---------------------------------------------------------------------------------------
  // searchVideos
  // ---------------------------------------------------------------------------------------

  /** The fields `extractVideoData` returns. */
  datatype Extraction = Extraction(videoUrl: Option<string>, coverImageUrl: Option<string>)

  /**
    What processing one result's page produced: the fetch threw, the response was not ok,
    or the page was read and extraction either returned data or threw (`None`).
   */
  datatype ItemFetch = ItemThrew | ItemNotOk | ItemFetched(extraction: Option<Extraction>)

  /** A processing step that handed back the original item. */
  predicate ItemFailed(f: ItemFetch)
  {
    !(f.ItemFetched? && f.extraction.Some?)
  }

  /** One item's mapping: the item with the extracted fields, or the item itself on any failure. */
  function Enrich(item: SearchResultItem, f: ItemFetch): (v: VideoSearchResultItem)
    ensures v.item == item
    ensures ItemFailed(f) ==> v == Plain(item)
    ensures !ItemFailed(f) ==>
      v.videoUrl == f.extraction.value.videoUrl && v.coverImageUrl == f.extraction.value.coverImageUrl
  {
    match f
    case ItemFetched(Some(e)) => VideoSearchResultItem(item, e.videoUrl, e.coverImageUrl)
    case _ => Plain(item)
  }

  /** The query `searchVideos` sends. */
  function VideoQuery(query: string): string
  {
    query + " video"
  }

  /**
    `searchVideos`, given the web-search reply and, for the result at each position, what
    processing its page produced.
   */
  function SearchVideos(config: Config, query: string, page: int, safe: Safe,
                        reply: ApiReply<SearchResults>, fetches: nat -> ItemFetch): (o: Outcome<VideoSearchResults>)
    ensures var web := Search(Web, config, VideoQuery(query), page, safe, reply);
      && o.request == web.request
      && (web.result.ApiError? ==> o.result == ApiError(web.result.error))
      && (web.result.Data? ==>
            && o.result.Data?
            && o.result.value.searchInformation == web.result.value.searchInformation
            && (web.result.value.items.None? ==> o.result.value.items == []))
    ensures o.result.Data? && reply.body.value.items.Some? ==>
      var source := reply.body.value.items.value;
      && |o.result.value.items| == |source|
      && forall i :: 0 <= i < |source| ==> o.result.value.items[i] == Enrich(source[i], fetches(i))
  {
    var web := Search(Web, config, VideoQuery(query), page, safe, reply);
    match web.result
    case ApiError(e) => Outcome(web.request, ApiError(e))
    case Data(results) =>
      var items := match results.items
        case None => []
        case Some(source) => seq(|source|, i requires 0 <= i < |source| => Enrich(source[i], fetches(i)));
      Outcome(web.request, Data(VideoSearchResults(results.searchInformation, items)))
  }

  /** The video search sends the user's query with " video" appended, through the web search. */
  lemma VideoQuerySent(config: Config, query: string, page: int, safe: Safe,
                       reply: ApiReply<SearchResults>, fetches: nat -> ItemFetch)
    requires config.apiKey != PlaceholderKey
    ensures var o := SearchVideos(config, query, page, safe, reply, fetches);
      o.request.Some? && Lookup(o.request.value, "q") == Some(query + " video")
  {
    SearchRequest(Web, config, VideoQuery(query), page, safe, reply);
  }

  /** The video results are the web results, same count and order; a result whose page failed is unchanged. */
  lemma VideoResultsKeepWebResults(config: Config, query: string, page: int, safe: Safe,
                                   source: seq<SearchResultItem>, info: SearchInformation,
                                   fetches: nat -> ItemFetch, i: nat)
    requires config.apiKey != PlaceholderKey && i < |source|
    ensures var o := SearchVideos(config, query, page, safe, Ok(Read(SearchResults(info, Some(source)))), fetches);
      && o.result.Data?
      && |o.result.value.items| == |source|
      && o.result.value.items[i].item == source[i]
      && (ItemFailed(fetches(i)) ==> o.result.value.items[i] == Plain(source[i]))
  {
  }

  // ---------------------------------------------------------------------------------------
  // fetchPageContent
  // ---------------------------------------------------------------------------------------

  /** `response.ok`: a status in the range 200 to 299. */
  predicate IsOkStatus(status: int)
  {
    200 <= status <= 299
  }

  datatype PageReply =
    | PageNetworkFailure(cause: Thrown)
    | PageResponse(status: int, text: Body<string>)

  datatype PageResult = PageContent(content: string) | PageError(error: string)

  function FetchPageContent(reply: PageReply): (r: PageResult)
    ensures r.PageContent? <==> reply.PageResponse? && IsOkStatus(reply.status) && reply.text.Read?
    ensures r.PageContent? ==> r.content == reply.text.value
    ensures reply.PageResponse? && !IsOkStatus(reply.status) ==>
      r == PageError(PageStatusPrefix + Decimal.IntToDecimal(reply.status))
    ensures reply.PageNetworkFailure? && reply.cause.OtherValue? ==> r == PageError(UnknownPageError)
    ensures reply.PageNetworkFailure? && reply.cause.ErrorObject? ==> r == PageError(reply.cause.message)
    ensures reply.PageResponse? && IsOkStatus(reply.status) && reply.text.Unreadable? ==>
      r == PageError(CaughtPageError(reply.text.cause))
  {
    match reply
    case PageNetworkFailure(t) => PageError(CaughtPageError(t))
    case PageResponse(status, text) =>
      if !IsOkStatus(status) then PageError(PageStatusPrefix + Decimal.IntToDecimal(status))
      else match text
        case Read(content) => PageContent(content)
        case Unreadable(t) => PageError(CaughtPageError(t))
  }

  /** The `catch` of `fetchPageContent`. */
  function CaughtPageError(t: Thrown): (error: string)
    ensures t.ErrorObject? ==> error == t.message
    ensures t.OtherValue? ==> error == UnknownPageError
  {
    match t
    case ErrorObject(m) => m
    case OtherValue => UnknownPageError
  }

  /** The status of a failed page fetch can be read back from the error text. */
  lemma PageStatusReadsBack(status: int, text: Body<string>)
    requires !IsOkStatus(status)
    ensures var r := FetchPageContent(PageResponse(status, text));
      && r.PageError?
      && |r.error| > |PageStatusPrefix|
      && r.error[..|PageStatusPrefix|] == PageStatusPrefix
      && Decimal.ParseInt(r.error[|PageStatusPrefix|..]) == status
  {
    var digits := Decimal.IntToDecimal(status);
    var e := PageStatusPrefix + digits;
    assert e[|PageStatusPrefix|..] == digits;
    Decimal.IntRoundTrip(status);
  }
}
