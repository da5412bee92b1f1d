/**
 * The home page's state and its submit handler. The page keeps the typed
 * URL, a loading flag, the roast text, an error message and the blogger
 * object of the last answer. Submitting clears the old answer, checks the
 * URL, posts it to the analysis route, and shows either the roast (with runs
 * of three or more line breaks cut to two) or the message of whatever was
 * thrown on the way.
 *
 * The browser's `fetch` and the body parser arrive as one parameter: the
 * reply to the POST. Every error the handler can meet is an `Error`, so the
 * shown message is always that error's message; the messages the runtime
 * itself produces are written out as constants.
 */
module HomePage {
  import opened Wrappers
  import opened Text
  import opened Json
  import opened Sanitizer
  import opened ExtractorPatterns
  import opened Extractor
  import opened AnalyzeRoute
  import opened RoastView

  /** The only test a URL must pass before it is posted. */
  const SiteMarker: string := "xiaohongshu.com"
  const InvalidLink: string := "请输入有效的小红书链接"
  const AnalysisFailed: string := "分析失败，请稍后再试"

  /** What the runtime throws when the handler reads a property of a `null` body. */
  const NullErrorBody: string := "Cannot read properties of null (reading 'error')"
  const NullDataBody: string := "Cannot read properties of null (reading 'roast')"
  /** What the runtime throws when the roast is truthy but not a string. */
  const NotAString: string := "processedRoast.replace is not a function"

  /**
   * The reply to `fetch("/api/analyze", …)`: the request failed (a
   * `TypeError` with its message), or an HTTP answer whose body parses to a
   * JSON value or fails to parse (a `SyntaxError` with its message).
   */
  datatype ApiReply =
    | NetworkError(message: string)
    | HttpReply(ok: bool, body: Result<Json, string>)

  /** What the page shows once the handler is done: the roast and the blogger, or an error message. */
  datatype View = View(result: string, blogger: Option<Json>)

  /** The end state of one submission, and how many times the handler waited on the network. */
  datatype Settlement = Settlement(outcome: Result<View, string>, waits: nat)

  /** The page's state at one of the handler's `await`s. */
  datatype Snapshot = Snapshot(loading: bool, result: string, error: string, blogger: Option<Json>)

  /** While a submission waits, the page shows the busy button and nothing of the previous answer. */
  const Busy: Snapshot := Snapshot(true, "", "", None)

  /** `errorData.error || "分析失败，请稍后再试"` for a body that is not `null`. */
  function ErrorField(data: Json): (e: Json)
    ensures Truthy(e)
    ensures TruthyField(Prop(data, "error")) ==> Some(e) == Prop(data, "error")
    ensures !TruthyField(Prop(data, "error")) ==> e == JStr(AnalysisFailed)
  {
    var field := Prop(data, "error");
    if TruthyField(field) then field.value else JStr(AnalysisFailed)
  }

  /** `data.roast || ""` for a body that is not `null`. */
  function RoastField(data: Json): (r: Json)
    ensures Truthy(r) || r == JStr("")
    ensures TruthyField(Prop(data, "roast")) ==> Some(r) == Prop(data, "roast")
    ensures !TruthyField(Prop(data, "roast")) ==> r == JStr("")
  {
    var field := Prop(data, "roast");
    if TruthyField(field) then field.value else JStr("")
  }

  /** The outcome of `handleSubmit` for the URL in the input and the reply it gets. */
  function Submit(url: string, reply: ApiReply): (s: Settlement)
    ensures s.waits == 0 <==> !Contains(url, SiteMarker)
    ensures s.waits == 0 ==> s.outcome == Failure(InvalidLink)
    ensures s.waits == 2 <==> Contains(url, SiteMarker) && reply.HttpReply?
    ensures s.outcome.Success? ==> s.waits == 2 && reply.ok && reply.body.Success?
    ensures s.outcome.Success? ==> NoTripleNewline(s.outcome.value.result)
    ensures s.outcome.Success? && s.outcome.value.blogger.Some? ==> Truthy(s.outcome.value.blogger.value)
  {
    if !Contains(url, SiteMarker) then Settlement(Failure(InvalidLink), 0)
    else
      match reply
      case NetworkError(m) => Settlement(Failure(m), 1)
      case HttpReply(ok, Failure(m)) => Settlement(Failure(m), 2)
      case HttpReply(ok, Success(data)) =>
        if !ok then
          Settlement(Failure(if data.JNull? then NullErrorBody else ToText(ErrorField(data))), 2)
        else if data.JNull? then Settlement(Failure(NullDataBody), 2)
        else
          match RoastField(data)
          case JStr(roast) =>
            CollapseLeavesNoTriple(roast);
            var blogger := Prop(data, "blogger");
            Settlement(Success(View(CollapseNewlines(roast), if TruthyField(blogger) then blogger else None)), 2)
          case _ => Settlement(Failure(NotAString), 2)
  }

  class Home {
    var url: string
    var loading: bool
    var result: string
    var error: string
    var bloggerInfo: Option<Json>
    /** The URLs posted to the analysis route, oldest first. */
    var requests: seq<string>
    /** The state at each `await` the handler reached, oldest first. */
    var waits: seq<Snapshot>

    /** What the page shows for a settled submission. */
    predicate Shows(outcome: Result<View, string>)
      reads this
    {
      match outcome
      case Success(v) => result == v.result && bloggerInfo == v.blogger && error == ""
      case Failure(m) => error == m && result == "" && bloggerInfo.None?
    }

    constructor ()
      ensures url == "" && !loading && result == "" && error == "" && bloggerInfo.None?
      ensures requests == [] && waits == []
    {
      url := "";
      loading := false;
      result := "";
      error := "";
      bloggerInfo := None;
      requests := [];
      waits := [];
    }

    /** The input's `onChange`. */
    method SetUrl(typed: string)
      modifies this
      ensures url == typed
      ensures loading == old(loading) && result == old(result) && error == old(error) && bloggerInfo == old(bloggerInfo)
      ensures requests == old(requests) && waits == old(waits)
    {
      url := typed;
    }

    /** `handleSubmit`: clear, check the URL, post it, and show the roast or the error. */
    method HandleSubmit(reply: ApiReply)
      modifies this
      ensures url == old(url) && !loading
      ensures Shows(Submit(url, reply).outcome)
      ensures requests == old(requests) + (if Contains(url, SiteMarker) then [url] else [])
      ensures |waits| == |old(waits)| + Submit(url, reply).waits
      ensures waits[..|old(waits)|] == old(waits)
      ensures forall k | |old(waits)| <= k < |waits| :: waits[k] == Busy
    {
      loading := true;
      error := "";
      result := "";
      bloggerInfo := None;
      if !Contains(url, SiteMarker) {
        error := InvalidLink;
      } else {
        requests := requests + [url];
        waits := waits + [Snapshot(loading, result, error, bloggerInfo)];
        match reply
        case NetworkError(m) =>
          error := m;
        case HttpReply(ok, body) =>
          waits := waits + [Snapshot(loading, result, error, bloggerInfo)];
          match body
          case Failure(m) =>
            error := m;
          case Success(data) =>
            if !ok {
              error := if data.JNull? then NullErrorBody else ToText(ErrorField(data));
            } else if data.JNull? {
              error := NullDataBody;
            } else {
              var processed := RoastField(data);
              if !processed.JStr? {
                error := NotAString;
              } else {
                result := CollapseNewlines(processed.s);
                if TruthyField(Prop(data, "blogger")) {
                  bloggerInfo := Prop(data, "blogger");
                }
              }
            }
      }
      loading := false;
    }
  }

  // ---------------------------------------------------------------------------
  // Properties of a submission

  /**
   * A failed submission always shows a non-empty message, provided the
   * runtime's own messages are non-empty, except when the body's `error` is
   * an array: `new Error([])` has the empty message, and the page then shows
   * neither an error nor a roast.
   */
  lemma FailureIsShown(url: string, reply: ApiReply)
    requires reply.NetworkError? ==> reply.message != ""
    requires reply.HttpReply? && reply.body.Failure? ==> reply.body.error != ""
    ensures var s := Submit(url, reply);
      s.outcome.Failure? ==>
        s.outcome.error != ""
        || (reply.HttpReply? && !reply.ok && reply.body.Success? && ErrorField(reply.body.value).JArr?)
  {
  }

  /** The body of an array `error` with an empty message: a failed answer that shows nothing. */
  lemma EmptyArrayErrorIsSilent(url: string)
    requires Contains(url, SiteMarker)
    ensures Submit(url, HttpReply(false, Success(JObj(map["error" := JArr([])])))).outcome == Failure("")
  {
    var data := JObj(map["error" := JArr([])]);
    assert Prop(data, "error") == Some(JArr([]));
  }

  /** A shown roast is left alone by a second pass of the line-break cut. */
  lemma ShownRoastStable(url: string, reply: ApiReply)
    requires Submit(url, reply).outcome.Success?
    ensures var r := Submit(url, reply).outcome.value.result; CollapseNewlines(r) == r
  {
    CollapseIdentity(Submit(url, reply).outcome.value.result);
  }

  // ---------------------------------------------------------------------------
  // The page against the route

  /** The reply the page gets for one of the route's answers: HTTP 200 and the answer's JSON. */
  function RouteReply(r: Response): ApiReply {
    HttpReply(true, Success(ResponseJson(r)))
  }

  /**
   * The page reads only `roast` and `blogger` from an answer with status 200,
   * so when the route cannot fetch the page (`success: false` with an error
   * and no roast) the page shows neither a roast nor an error.
   */
  lemma FetchFailureShowsNothing(url: string)
    requires Contains(url, SiteMarker)
    ensures Submit(url, RouteReply(FetchFailure)).outcome == Success(View("", None))
  {
    var data := ResponseJson(FetchFailure);
    assert RoastField(data) == JStr("");
    CollapseIdentity("");
  }

  /** A roast the route answers with is shown with its line breaks cut, beside the route's blogger. */
  lemma RouteRoastShown(url: string, r: Response)
    requires Contains(url, SiteMarker)
    requires r.roast.Some? && r.roast.value.JStr? && r.roast.value.s != ""
    requires r.blogger.Some?
    ensures Submit(url, RouteReply(r)).outcome
         == Success(View(CollapseNewlines(r.roast.value.s), Some(BloggerJson(r.blogger.value))))
  {
    var data := ResponseJson(r);
    assert RoastField(data) == r.roast.value;
  }

  /** When every attempt fails the page shows the fallback roast, not the route's error. */
  lemma AllFailuresShowFallback(url: string, b: BloggerInfo)
    requires Contains(url, SiteMarker)
    ensures Submit(url, RouteReply(Response(false, Some(AllAttemptsFailed), Some(b), Some(JStr(FallbackRoast))))).outcome
         == Success(View(CollapseNewlines(FallbackRoast), Some(BloggerJson(b))))
  {
    RouteRoastShown(url, Response(false, Some(AllAttemptsFailed), Some(b), Some(JStr(FallbackRoast))));
  }

  /** A blogger with a non-empty nickname and avatar is shown under that nickname, with the avatar image. */
  lemma BloggerHeader(b: BloggerInfo)
    requires b.nickname != "" && b.avatar != ""
    ensures var info := Some(BloggerJson(b));
      HeaderName(info) == b.nickname && ShowsAvatar(info) && AvatarPlaceholder(info) == b.nickname[..1]
  {
    var info := Some(BloggerJson(b));
    assert NicknameText(info) == Some(b.nickname);
  }

  /** The blogger the route extracts is always such a blogger. */
  lemma ExtractedBloggerHeader(html: string)
    ensures var info := Some(BloggerJson(BloggerOf(html)));
      HeaderName(info) == BloggerOf(html).nickname && ShowsAvatar(info)
  {
    var b := BloggerOf(html);
    assert b.avatar != "" by {
      if b.avatar != DefaultAvatar {
        assert StartsWith(b.avatar, AvatarHost) && AvatarHost != "";
      }
    }
    BloggerHeader(b);
  }
}
