/**
 * `POST /api/analyze`: read the profile URL, fetch the page through the
 * proxy, extract the blogger, clean the page, and ask the language model for
 * a roast, with up to three attempts and a pause after each failed attempt
 * but the last. Every outcome is answered with HTTP 200 and a body whose
 * `success` flag tells the cases apart.
 *
 * The outside world arrives as parameters: the parsed request body, the
 * proxy (`fetch` maps the proxy address to the page, `None` when the request
 * fails or its status is not 2xx), the API key, and the vendor's reply to
 * each attempt (`reply(n)` for attempt `n`, counted from 1). What the route
 * does to the world is recorded as a trace of events: the proxy request, each
 * call of `generateRoast` with the prompt it sent, and each one-second pause.
 */
module AnalyzeRoute {
  import opened Wrappers
  import opened Text
  import opened Json
  import opened Sanitizer
  import opened Fetcher
  import opened Generator
  import opened Extractor

  const MaxAttempts: nat := 3

  /** The message `fetchRawXiaohongshuContent` throws for every failure. */
  const FetchFailed: string := "无法获取小红书内容，请检查链接是否有效"

  const AllAttemptsFailed: string := "多次尝试生成吐槽均失败"

  /** The roast sent back when all three attempts failed. */
  const FallbackRoast: string :=
    "很抱歉，AI在生成吐槽时遇到了一些问题。\n\n【关于这位博主】\n这位小红书博主看起来很有趣，但AI在处理时遇到了一些挑战。\n\n"
    + "【吐槽】\nAI也有出错的时候，就像那些经常\"翻车\"的网红博主一样。不过，与其沮丧，不如再试一次！"
    + "毕竟，在互联网的世界里，重新加载页面解决90%的问题。\n\n希望下次能为您提供一个精彩的吐槽！"

  /** The roast sent back when the request body could not be read. */
  function CrashRoast(message: string): string {
    "很抱歉，AI在生成吐槽时遇到了一些技术问题。\n\n【系统消息】\n处理请求时发生错误，请稍后再试。\n\n错误详情: " + message
  }

  /** `await request.json()` and the read of its `url`: unreadable, or an object whose `url` may not be a string. */
  datatype RequestBody =
    | Unreadable(message: string)
    | Body(url: Option<string>)

  /** The JSON body of the answer; a field that is `None` is left out of it. */
  datatype Response = Response(success: bool, error: Option<string>, blogger: Option<BloggerInfo>, roast: Option<Json>)

  /** `{ nickname, avatar }` as JSON. */
  function BloggerJson(b: BloggerInfo): (j: Json)
    ensures Prop(j, "nickname") == Some(JStr(b.nickname)) && Prop(j, "avatar") == Some(JStr(b.avatar))
  {
    JObj(map["nickname" := JStr(b.nickname), "avatar" := JStr(b.avatar)])
  }

  /** `NextResponse.json(…)`: the body as JSON, with the fields that are `None` left out. */
  function ResponseJson(r: Response): (j: Json)
    ensures j.JObj? && Prop(j, "success") == Some(JBool(r.success))
    ensures Prop(j, "error") == (if r.error.Some? then Some(JStr(r.error.value)) else None)
    ensures Prop(j, "blogger") == (if r.blogger.Some? then Some(BloggerJson(r.blogger.value)) else None)
    ensures Prop(j, "roast") == r.roast
  {
    var m := map["success" := JBool(r.success)];
    var m := if r.error.Some? then m["error" := JStr(r.error.value)] else m;
    var m := if r.blogger.Some? then m["blogger" := BloggerJson(r.blogger.value)] else m;
    var m := if r.roast.Some? then m["roast" := r.roast.value] else m;
    JObj(m)
  }

  datatype Event =
    | ProxyFetch(address: string)
    | Generate(attempt: nat, request: Option<string>)
    | Sleep

  datatype Exchange = Exchange(response: Response, events: seq<Event>)

  // ---------------------------------------------------------------------------
  // What the route answers

  /**
   * The attempts `generateRoast` makes on the cleaned page, one per reply:
   * attempt `n`, counted from 1, is `tries[n - 1]`.
   */
  function Tries(apiKey: Option<string>, cleaned: string, reply: nat -> LlmReply): (tries: seq<Attempt>)
    ensures |tries| == MaxAttempts
    ensures forall n | 1 <= n <= MaxAttempts :: tries[n - 1] == GenerateRoast(apiKey, cleaned, reply(n))
  {
    seq(MaxAttempts, i requires 0 <= i < MaxAttempts => GenerateRoast(apiKey, cleaned, reply(i + 1)))
  }

  predicate Succeeds(tries: seq<Attempt>, n: nat)
    requires |tries| == MaxAttempts
  {
    1 <= n <= MaxAttempts && tries[n - 1].outcome.Generated?
  }

  /** The first attempt from `n` to the last one that produces a roast. */
  function FirstSuccess(tries: seq<Attempt>, n: nat): (r: Option<nat>)
    requires |tries| == MaxAttempts && 1 <= n
    ensures r.Some? ==> n <= r.value <= MaxAttempts && Succeeds(tries, r.value)
    ensures r.Some? ==> forall k | n <= k < r.value :: !Succeeds(tries, k)
    ensures r.None? ==> forall k | n <= k <= MaxAttempts :: !Succeeds(tries, k)
    decreases MaxAttempts + 1 - n
  {
    if n > MaxAttempts then None
    else if Succeeds(tries, n) then Some(n)
    else FirstSuccess(tries, n + 1)
  }

  /** The events of `n` failed attempts, each followed by its pause. */
  function Retries(tries: seq<Attempt>, n: nat): seq<Event>
    requires n <= |tries|
  {
    if n == 0 then []
    else Retries(tries, n - 1) + [Generate(n, tries[n - 1].request)] + [Sleep]
  }

  /** The events of the generation phase: failed attempts with their pauses, then the last attempt made. */
  function GenerationEvents(tries: seq<Attempt>): seq<Event>
    requires |tries| == MaxAttempts
  {
    var last := FirstSuccess(tries, 1).GetOr(MaxAttempts);
    Retries(tries, last - 1) + [Generate(last, tries[last - 1].request)]
  }

  /** The answer when the page could not be fetched. */
  const FetchFailure: Response := Response(false, Some(FetchFailed), None, None)

  /**
   * The whole exchange, from the request body to the answer. Every answer
   * says whether it succeeded: a failure carries an error, a success carries
   * the blogger. A blogger is reported exactly when the page was fetched, and
   * it is what the extraction gives for that page. The proxy request, when
   * there is one, is the first event.
   */
  function Respond(body: RequestBody, fetch: string -> Option<string>, apiKey: Option<string>, reply: nat -> LlmReply): (x: Exchange)
    ensures !x.response.success <==> x.response.error.Some?
    ensures x.response.success ==> x.response.blogger.Some? && x.response.blogger.value.nickname != ""
    ensures x.response.blogger.Some? <==> body.Body? && body.url.Some? && fetch(ProxyUrl(body.url.value)).Some?
    ensures x.response.blogger.Some? ==> x.response.blogger.value == BloggerOf(fetch(ProxyUrl(body.url.value)).value)
    ensures x.events != [] ==> body.Body? && body.url.Some? && x.events[0] == ProxyFetch(ProxyUrl(body.url.value))
    ensures body.Unreadable? ==> x.response.error == Some(body.message) && x.events == []
  {
    match body
    case Unreadable(message) => Exchange(Response(false, Some(message), None, Some(JStr(CrashRoast(message)))), [])
    case Body(None) => Exchange(FetchFailure, [])
    case Body(Some(url)) =>
      var address := ProxyUrl(url);
      match fetch(address)
      case None => Exchange(FetchFailure, [ProxyFetch(address)])
      case Some(html) =>
        var tries := Tries(apiKey, Clean(html), reply);
        Exchange(Answer(BloggerOf(html), tries), [ProxyFetch(address)] + GenerationEvents(tries))
  }

  /** The answer once the page is fetched: the roast of the first successful attempt, or the fallback. */
  function Answer(blogger: BloggerInfo, tries: seq<Attempt>): (r: Response)
    requires |tries| == MaxAttempts
    ensures r.success <==> FirstSuccess(tries, 1).Some?
    ensures r.success <==> r.error.None?
    ensures r.blogger == Some(blogger)
  {
    match FirstSuccess(tries, 1)
    case Some(n) => Response(true, None, Some(blogger), tries[n - 1].outcome.roast)
    case None => Response(false, Some(AllAttemptsFailed), Some(blogger), Some(JStr(FallbackRoast)))
  }

  // ---------------------------------------------------------------------------
  // The route's code

  method Post(body: RequestBody, fetch: string -> Option<string>, apiKey: Option<string>, reply: nat -> LlmReply)
    returns (response: Response, events: seq<Event>)
    ensures Exchange(response, events) == Respond(body, fetch, apiKey, reply)
  {
    events := [];
    if body.Unreadable? {
      return Response(false, Some(body.message), None, Some(JStr(CrashRoast(body.message)))), events;
    }
    if body.url.None? {
      // `url.startsWith` throws inside the fetcher's `try`, which rethrows its own message.
      return FetchFailure, events;
    }
    var address := ProxyUrl(body.url.value);
    events := [ProxyFetch(address)];
    var page := fetch(address);
    if page.None? {
      return FetchFailure, events;
    }
    var answer, generation := AnswerPage(page.value, apiKey, reply);
    events := events + generation;
    Fetched(body.url.value, fetch, apiKey, reply);
    return answer, events;
  }

  /** The route once the page is fetched: extract the blogger, clean the page, and run the retry loop. */
  method AnswerPage(html: string, apiKey: Option<string>, reply: nat -> LlmReply)
    returns (response: Response, generation: seq<Event>)
    ensures var tries := Tries(apiKey, Clean(html), reply);
      response == Answer(BloggerOf(html), tries) && generation == GenerationEvents(tries)
  {
    var blogger := ExtractBloggerInfo(html);
    var cleaned := Clean(html);

    var roast, gaveUp;
    roast, gaveUp, generation := RetryGenerate(apiKey, cleaned, reply);
    if gaveUp {
      return Response(false, Some(AllAttemptsFailed), Some(blogger), Some(JStr(FallbackRoast))), generation;
    }
    return Response(true, None, Some(blogger), roast), generation;
  }

  /**
   * The `while (attempts < maxAttempts)` loop: `gaveUp` is the early return
   * after the last failed attempt; otherwise the loop was left by `break`
   * with the roast of the successful attempt.
   */
  method RetryGenerate(apiKey: Option<string>, cleaned: string, reply: nat -> LlmReply)
    returns (roast: Option<Json>, gaveUp: bool, events: seq<Event>)
    ensures var tries := Tries(apiKey, cleaned, reply);
      && (gaveUp <==> FirstSuccess(tries, 1).None?)
      && (!gaveUp ==> roast == tries[FirstSuccess(tries, 1).value - 1].outcome.roast)
      && events == GenerationEvents(tries)
  {
    ghost var tries := Tries(apiKey, cleaned, reply);
    roast := None;
    gaveUp := false;
    events := [];
    var attempts := 0;
    while attempts < MaxAttempts
      invariant 0 <= attempts < MaxAttempts
      invariant events == Retries(tries, attempts)
      invariant FirstSuccess(tries, 1) == FirstSuccess(tries, attempts + 1)
    {
      attempts := attempts + 1;
      var attempt := GenerateRoast(apiKey, cleaned, reply(attempts));
      assert attempt == tries[attempts - 1];
      RetryStep(tries, attempts);
      events := events + [Generate(attempts, attempt.request)];
      if attempt.outcome.Generated? {
        roast := attempt.outcome.roast;
        LastAttempt(tries, attempts);
        return;
      }
      if attempts >= MaxAttempts {
        LastAttempt(tries, MaxAttempts);
        gaveUp := true;
        return;
      }
      events := events + [Sleep];
    }
  }

  /** One turn of the retry loop: attempt `n` succeeds and is the first, or the search and the trace go on. */
  lemma RetryStep(tries: seq<Attempt>, n: nat)
    requires |tries| == MaxAttempts && 1 <= n <= MaxAttempts
    ensures FirstSuccess(tries, n) == if tries[n - 1].outcome.Generated? then Some(n) else FirstSuccess(tries, n + 1)
    ensures Retries(tries, n) == Retries(tries, n - 1) + [Generate(n, tries[n - 1].request)] + [Sleep]
  {
  }

  /** The generation events end with the last attempt made: the first success, or the third attempt. */
  lemma LastAttempt(tries: seq<Attempt>, last: nat)
    requires |tries| == MaxAttempts && FirstSuccess(tries, 1).GetOr(MaxAttempts) == last
    ensures GenerationEvents(tries) == Retries(tries, last - 1) + [Generate(last, tries[last - 1].request)]
  {
  }

  /** The first attempt to succeed, found by its defining property. */
  lemma {:induction false} FirstSuccessIs(tries: seq<Attempt>, m: nat, n: nat)
    requires |tries| == MaxAttempts
    requires 1 <= m <= n <= MaxAttempts && Succeeds(tries, n)
    requires forall k | m <= k < n :: !Succeeds(tries, k)
    ensures FirstSuccess(tries, m) == Some(n)
    decreases n - m
  {
    if m < n {
      FirstSuccessIs(tries, m + 1, n);
    }
  }

  /** No attempt succeeds from `m` on. */
  lemma {:induction false} NoSuccessFrom(tries: seq<Attempt>, m: nat)
    requires |tries| == MaxAttempts && 1 <= m
    requires forall k | m <= k <= MaxAttempts :: !Succeeds(tries, k)
    ensures FirstSuccess(tries, m).None?
    decreases MaxAttempts + 1 - m
  {
    if m <= MaxAttempts {
      NoSuccessFrom(tries, m + 1);
    }
  }

  // ---------------------------------------------------------------------------
  // What the route promises

  function Generations(events: seq<Event>): nat {
    if events == [] then 0 else (if events[0].Generate? then 1 else 0) + Generations(events[1..])
  }

  function Sleeps(events: seq<Event>): nat {
    if events == [] then 0 else (if events[0].Sleep? then 1 else 0) + Sleeps(events[1..])
  }

  lemma {:induction false} CountsAppend(a: seq<Event>, b: seq<Event>)
    ensures Generations(a + b) == Generations(a) + Generations(b)
    ensures Sleeps(a + b) == Sleeps(a) + Sleeps(b)
  {
    if a == [] {
      assert a + b == b;
    } else {
      assert (a + b)[1..] == a[1..] + b;
      CountsAppend(a[1..], b);
    }
  }

  lemma {:induction false} RetryCounts(tries: seq<Attempt>, n: nat)
    requires n <= |tries|
    ensures Generations(Retries(tries, n)) == n
    ensures Sleeps(Retries(tries, n)) == n
  {
    if n > 0 {
      RetryCounts(tries, n - 1);
      var step := Generate(n, tries[n - 1].request);
      CountsAppend(Retries(tries, n - 1), [step]);
      CountsAppend(Retries(tries, n - 1) + [step], [Sleep]);
      assert [step][1..] == [] && [Sleep][1..] == [];
    }
  }

  /**
   * `generateRoast` runs once per attempt made: as many times as the number
   * of the first successful attempt, or three times when all fail. There is a
   * pause after every attempt but the last one made, so at most two.
   */
  lemma GenerationCounts(tries: seq<Attempt>)
    requires |tries| == MaxAttempts
    ensures var events := GenerationEvents(tries);
      var made := FirstSuccess(tries, 1).GetOr(MaxAttempts);
      && Generations(events) == made <= MaxAttempts
      && Sleeps(events) == made - 1
  {
    var last := FirstSuccess(tries, 1).GetOr(MaxAttempts);
    var tail := [Generate(last, tries[last - 1].request)];
    RetryCounts(tries, last - 1);
    CountsAppend(Retries(tries, last - 1), tail);
  }

  /** Whatever the request, `generateRoast` runs at most three times and the route pauses at most twice. */
  lemma BoundedRetries(body: RequestBody, fetch: string -> Option<string>, apiKey: Option<string>, reply: nat -> LlmReply)
    ensures Generations(Respond(body, fetch, apiKey, reply).events) <= MaxAttempts
    ensures Sleeps(Respond(body, fetch, apiKey, reply).events) < MaxAttempts
  {
    if body.Body? && body.url.Some? {
      var address := ProxyUrl(body.url.value);
      if fetch(address).Some? {
        var tries := Tries(apiKey, Clean(fetch(address).value), reply);
        GenerationCounts(tries);
        CountsAppend([ProxyFetch(address)], GenerationEvents(tries));
      }
    }
  }

  /** Once the page is fetched, the answer and the events depend only on the blogger and the attempts. */
  lemma Fetched(url: string, fetch: string -> Option<string>, apiKey: Option<string>, reply: nat -> LlmReply)
    requires fetch(ProxyUrl(url)).Some?
    ensures var html := fetch(ProxyUrl(url)).value;
      var tries := Tries(apiKey, Clean(html), reply);
      Respond(Body(Some(url)), fetch, apiKey, reply)
        == Exchange(Answer(BloggerOf(html), tries), [ProxyFetch(ProxyUrl(url))] + GenerationEvents(tries))
  {
  }

  /** The first successful attempt ends the loop with `success: true`, the blogger and that attempt's roast. */
  lemma FirstSuccessAnswers(url: string, fetch: string -> Option<string>, apiKey: Option<string>, reply: nat -> LlmReply, n: nat)
    requires fetch(ProxyUrl(url)).Some?
    requires var tries := Tries(apiKey, Clean(fetch(ProxyUrl(url)).value), reply);
      1 <= n <= MaxAttempts && Succeeds(tries, n) && forall k | 1 <= k < n :: !Succeeds(tries, k)
    ensures var html := fetch(ProxyUrl(url)).value;
      Respond(Body(Some(url)), fetch, apiKey, reply).response
        == Response(true, None, Some(BloggerOf(html)), Tries(apiKey, Clean(html), reply)[n - 1].outcome.roast)
  {
    FirstSuccessIs(Tries(apiKey, Clean(fetch(ProxyUrl(url)).value), reply), 1, n);
    Fetched(url, fetch, apiKey, reply);
  }

  /**
   * With a key, a first reply `{"choices": [{"message": m}, …]}` whose `m` is
   * truthy ends the loop at once: `success: true`, the blogger, and `m.content`.
   */
  lemma ShapedFirstReplyAnswers(url: string, fetch: string -> Option<string>, apiKey: Option<string>, reply: nat -> LlmReply)
    requires HasKey(apiKey) && fetch(ProxyUrl(url)).Some?
    requires reply(1).Reply? && !Blank(reply(1).text) && reply(1).parsed.Some?
    requires ReplyShaped(reply(1).parsed.value)
    requires Truthy(reply(1).parsed.value.fields["choices"].items[0].fields["message"])
    ensures var html := fetch(ProxyUrl(url)).value;
      var message := reply(1).parsed.value.fields["choices"].items[0].fields["message"];
      Respond(Body(Some(url)), fetch, apiKey, reply).response
        == Response(true, None, Some(BloggerOf(html)), Prop(message, "content"))
  {
    var tries := Tries(apiKey, Clean(fetch(ProxyUrl(url)).value), reply);
    ShapedReplyGenerates(reply(1).text, reply(1).parsed.value);
    assert tries[0].outcome == Classify(reply(1).text, reply(1).parsed);
    assert Succeeds(tries, 1);
    FirstSuccessAnswers(url, fetch, apiKey, reply, 1);
  }

  /** Three failed attempts give `success: false`, the fixed fallback roast and the extracted blogger. */
  lemma AllFailuresAnswer(url: string, fetch: string -> Option<string>, apiKey: Option<string>, reply: nat -> LlmReply)
    requires fetch(ProxyUrl(url)).Some?
    requires var tries := Tries(apiKey, Clean(fetch(ProxyUrl(url)).value), reply);
      forall k | 1 <= k <= MaxAttempts :: !Succeeds(tries, k)
    ensures var html := fetch(ProxyUrl(url)).value;
      Respond(Body(Some(url)), fetch, apiKey, reply).response
        == Response(false, Some(AllAttemptsFailed), Some(BloggerOf(html)), Some(JStr(FallbackRoast)))
  {
    NoSuccessFrom(Tries(apiKey, Clean(fetch(ProxyUrl(url)).value), reply), 1);
    Fetched(url, fetch, apiKey, reply);
  }

  /** Without an API key every attempt fails before sending anything, and the fallback answer is given. */
  lemma NoKeyNoRequest(url: string, fetch: string -> Option<string>, apiKey: Option<string>, reply: nat -> LlmReply)
    requires !HasKey(apiKey)
    requires fetch(ProxyUrl(url)).Some?
    ensures var exchange := Respond(Body(Some(url)), fetch, apiKey, reply);
      && exchange.response.error == Some(AllAttemptsFailed)
      && forall e | e in exchange.events && e.Generate? :: e.request.None?
  {
    var tries := Tries(apiKey, Clean(fetch(ProxyUrl(url)).value), reply);
    forall k | 0 <= k < MaxAttempts ensures tries[k].request.None? && !tries[k].outcome.Generated? {
      assert tries[k] == GenerateRoast(apiKey, Clean(fetch(ProxyUrl(url)).value), reply(k + 1));
    }
    SilentGeneration(tries);
    Fetched(url, fetch, apiKey, reply);
  }

  /** Attempts that send nothing and fail: no roast, and no generation event with a prompt. */
  lemma SilentGeneration(tries: seq<Attempt>)
    requires |tries| == MaxAttempts
    requires forall k | 0 <= k < MaxAttempts :: tries[k].request.None? && !tries[k].outcome.Generated?
    ensures FirstSuccess(tries, 1).None?
    ensures forall e | e in GenerationEvents(tries) && e.Generate? :: e.request.None?
  {
    NoSuccessFrom(tries, 1);
    var retries := Retries(tries, MaxAttempts - 1);
    var last := Generate(MaxAttempts, tries[MaxAttempts - 1].request);
    assert GenerationEvents(tries) == retries + [last];
    NoRequestsInRetries(tries, MaxAttempts - 1);
    forall e | e in GenerationEvents(tries) && e.Generate? ensures e.request.None? {
      assert e in retries || e == last;
    }
  }

  lemma {:induction false} NoRequestsInRetries(tries: seq<Attempt>, n: nat)
    requires n <= |tries|
    requires forall k | 0 <= k < n :: tries[k].request.None?
    ensures forall e | e in Retries(tries, n) && e.Generate? :: e.request.None?
  {
    if n > 0 {
      NoRequestsInRetries(tries, n - 1);
    }
  }

  /** When the page cannot be fetched nothing is extracted or generated: the answer is the fetch error. */
  lemma FetchFailureAnswers(body: RequestBody, fetch: string -> Option<string>, apiKey: Option<string>, reply: nat -> LlmReply)
    requires body.Body?
    requires body.url.None? || fetch(ProxyUrl(body.url.value)).None?
    ensures var exchange := Respond(body, fetch, apiKey, reply);
      && exchange.response == Response(false, Some(FetchFailed), None, None)
      && Generations(exchange.events) == 0
  {
  }
}
