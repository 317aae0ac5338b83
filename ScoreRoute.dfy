/** The `POST /api/score` handler of the server (`handleScore`), as a pure
    function of what it receives: the request's `url` field, the
    `PYTHON_API_URL` setting and the outcomes of the two outgoing requests it
    may make. Besides its reply it returns the requests it made, in order. */
module ScoreRoute {
  import opened TextOps
  import opened Api
  import HtmlText
  import Heuristic

  /** The `url` member of the parsed request body. */
  datatype UrlField =
    | Absent
    | NotAString
    | Text(value: string)

  /** What the call to the external scorer yields. A rejected `fetch` is
      turned into a non-OK reply by the handler's `.catch`. */
  datatype BackendOutcome =
    | BackendJson(data: ScoreResponse)  // an OK reply whose body parses
    | BackendBadJson                    // an OK reply whose body does not parse
    | BackendNotOk                      // a non-OK status, or a failed request
    | BackendUnreadable                 // a non-OK reply whose body cannot be read

  /** What fetching the article page yields. */
  datatype PageOutcome =
    | PageOk(html: string)
    | PageNotOk          // a non-OK status, or a failed request
    | PageUnreadable     // an OK reply whose body cannot be read

  datatype Call =
    | PostBackend(endpoint: string, request: ScoreRequest)
    | GetPage(url: string)

  datatype Reply =
    | ErrorReply(status: int, error: string)
    | JsonReply(body: ScoreResponse)

  datatype Handled = Handled(reply: Reply, calls: seq<Call>)

  /** The setting is used only when it is present and not empty. */
  predicate BackendConfigured(pyApi: Option<string>)
  {
    pyApi.Some? && pyApi.value != ""
  }

  /** The request names a URL: a non-empty string. */
  predicate HasUrl(field: UrlField)
  {
    field.Text? && field.value != ""
  }

  const LocalNote: string := "No PYTHON_API_URL configured; used server heuristic."

  /** The response built by the server's own scorer from the page's text and title. */
  function LocalResponse(url: string, title: Option<string>, text: string, configured: bool): (r: ScoreResponse)
    ensures r.url == url && r.title == title
    ensures var h := Heuristic.ComputeHeuristicScores(text);
            && r.categories == h.categories && r.total == h.total && r.rfProb == Some(h.rfProb)
            && r.classification == Some(h.classification)
    ensures r.modelVersion == Some(if configured then "python-external" else "heuristic-fallback")
    ensures r.notes.Some? <==> !configured
    ensures r.notes.Some? ==> r.notes.value == LocalNote
  {
    var h := Heuristic.ComputeHeuristicScores(text);
    ScoreResponse(
      url,
      title,
      h.categories,
      h.total,
      Some(h.rfProb),
      Some(h.classification),
      Some(h.classificationLabel),
      Some(if configured then "python-external" else "heuristic-fallback"),
      if configured then None else Some(LocalNote))
  }

  /** A locally scored response keeps every documented range. */
  lemma LocalResponseValid(url: string, title: Option<string>, text: string, configured: bool)
    ensures ValidResponse(LocalResponse(url, title, text, configured))
  {
    var h := Heuristic.ComputeHeuristicScores(text);
    Heuristic.CategoriesFacts(Heuristic.ComputeMetrics(text));
    assert forall i :: 0 <= i < |h.categories| ==> ValidCategory(h.categories[i]);
  }

  /** The page fetch and what follows it, after `calls` were already made. */
  function FromPage(url: string, configured: bool, page: PageOutcome, calls: seq<Call>): (h: Handled)
    ensures h.calls == calls + [GetPage(url)]
    ensures page.PageOk? ==>
              h.reply == JsonReply(LocalResponse(url, HtmlText.Title(page.html), HtmlText.StripHtml(page.html), configured))
    ensures page.PageNotOk? ==> h.reply == ErrorReply(502, "Failed to fetch article URL")
    ensures page.PageUnreadable? ==> h.reply == ErrorReply(500, "Unexpected error")
  {
    var calls' := calls + [GetPage(url)];
    match page
    case PageNotOk => Handled(ErrorReply(502, "Failed to fetch article URL"), calls')
    case PageUnreadable => Handled(ErrorReply(500, "Unexpected error"), calls')
    case PageOk(html) =>
      Handled(JsonReply(LocalResponse(url, HtmlText.Title(html), HtmlText.StripHtml(html), configured)), calls')
  }

  function HandleScore(field: UrlField, pyApi: Option<string>, backend: BackendOutcome, page: PageOutcome): (h: Handled)
    // no URL: rejected before any request is made
    ensures !HasUrl(field) ==> h == Handled(ErrorReply(400, "Missing 'url'"), [])
    // the external scorer is asked first, with the URL only, when configured
    ensures HasUrl(field) && BackendConfigured(pyApi) ==>
              |h.calls| >= 1 && h.calls[0] == PostBackend(pyApi.value, ScoreRequest(field.value))
    // its parsed reply is passed on as it is, and nothing else is fetched
    ensures HasUrl(field) && BackendConfigured(pyApi) && backend.BackendJson? ==>
              h.reply == JsonReply(backend.data) && |h.calls| == 1
    // an OK reply that does not parse, or a failed reply that cannot be read, ends in 500
    ensures HasUrl(field) && BackendConfigured(pyApi) && (backend.BackendBadJson? || backend.BackendUnreadable?) ==>
              h.reply == ErrorReply(500, "Unexpected error") && |h.calls| == 1
    // otherwise the page itself is fetched and scored locally
    ensures HasUrl(field) && (!BackendConfigured(pyApi) || backend.BackendNotOk?) ==>
              && |h.calls| == (if BackendConfigured(pyApi) then 2 else 1)
              && h.calls[|h.calls| - 1] == GetPage(field.value)
              && h == FromPage(field.value, BackendConfigured(pyApi), page, h.calls[..|h.calls| - 1])
  {
    if !HasUrl(field) then Handled(ErrorReply(400, "Missing 'url'"), [])
    else
      var url := field.value;
      var configured := BackendConfigured(pyApi);
      if configured then
        var calls := [PostBackend(pyApi.value, ScoreRequest(url))];
        match backend
        case BackendJson(data) => Handled(JsonReply(data), calls)
        case BackendBadJson => Handled(ErrorReply(500, "Unexpected error"), calls)
        case BackendUnreadable => Handled(ErrorReply(500, "Unexpected error"), calls)
        case BackendNotOk => FromPage(url, configured, page, calls)
      else FromPage(url, configured, page, [])
  }

  /** The JSON replies the handler builds itself are valid. */
  lemma OwnRepliesValid(field: UrlField, pyApi: Option<string>, backend: BackendOutcome, page: PageOutcome)
    ensures var h := HandleScore(field, pyApi, backend, page);
            h.reply.JsonReply? && (backend.BackendJson? ==> ValidResponse(backend.data)) ==>
              ValidResponse(h.reply.body)
  {
    if HasUrl(field) && page.PageOk? {
      LocalResponseValid(field.value, HtmlText.Title(page.html), HtmlText.StripHtml(page.html),
        BackendConfigured(pyApi));
    }
  }

  /** A locally scored reply is always valid, and its model version says
      whether an external scorer was configured (and failed). */
  lemma LocalReplyValid(field: UrlField, pyApi: Option<string>, backend: BackendOutcome, html: string)
    requires HasUrl(field)
    requires !BackendConfigured(pyApi) || backend.BackendNotOk?
    ensures var h := HandleScore(field, pyApi, backend, PageOk(html));
            && h.reply.JsonReply?
            && ValidResponse(h.reply.body)
            && h.reply.body.url == field.value
            && h.reply.body.modelVersion
               == Some(if BackendConfigured(pyApi) then "python-external" else "heuristic-fallback")
  {
    LocalResponseValid(field.value, HtmlText.Title(html), HtmlText.StripHtml(html), BackendConfigured(pyApi));
  }
}
