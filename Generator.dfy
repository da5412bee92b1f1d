/**
 * `generateRoast` of the analyze route: the prompt sent to the language model
 * and the classification of the vendor's answer into a roast or an error.
 * The HTTP call is an oracle: its outcome arrives as an `LlmReply`, the body
 * text together with what `JSON.parse` makes of it.
 */
module Generator {
  import opened Wrappers
  import opened Text
  import opened Json
  import opened Sanitizer

  /** The fixed instruction in front of the content (a template literal; its line breaks are `\n`). */
  const PromptPrefix: string :=
    "roast这位小红书博主（直接roast，不要说任何多余的话，角度需要多样和犀利）:\n\n"
    + "使用以下 Markdown 格式增强表现力:\n"
    + "1. 【标题】使用【】括起重要段落标题\n"
    + "2. **加粗** 用于强调重要观点\n\n"
    + "以下是博主内容：\n\n"

  /**
   * At most this many characters of content go into the prompt
   * (`substring(0, 18000)`). JavaScript counts UTF-16 code units, so the two
   * counts differ for characters outside the Basic Multilingual Plane.
   */
  const MaxContent: nat := 18000

  /** At most this many characters of an unparsable error body go into the error message. */
  const MaxExcerpt: nat := 200

  function Min(a: nat, b: nat): nat {
    if a <= b then a else b
  }

  /** `apiKey` is truthy: set, and not the empty string. */
  predicate HasKey(apiKey: Option<string>) {
    apiKey.Some? && apiKey.value != ""
  }

  /** The user message of the chat request. */
  function BuildPrompt(content: string): (r: string)
    ensures StartsWith(r, PromptPrefix)
    ensures |r| == |PromptPrefix| + Min(|content|, MaxContent)
    ensures StartsWith(content, r[|PromptPrefix|..])
  {
    var r := PromptPrefix + content[..Min(|content|, MaxContent)];
    assert r[|PromptPrefix|..] == content[..Min(|content|, MaxContent)];
    r
  }

  /** What the vendor call produced: no response at all, or a body and its parse. */
  datatype LlmReply =
    | TransportFailure
    | Reply(text: string, parsed: Option<Json>)

  /** Why an attempt failed. */
  datatype Failure =
    | MissingKey             // "缺少DeepSeek API密钥", thrown before any request
    | Transport              // `fetch` or `response.text()` rejected
    | EmptyBody              // "API返回空响应"
    | VendorError(excerpt: string)  // "API返回错误: " and the first 200 units
    | Unparsable             // "无法解析API响应"
    | NullResponse           // the body parsed to `null`; reading `choices` throws
    | BadShape               // "API响应格式不正确"

  datatype Outcome =
    | Generated(roast: Option<Json>)  // the value returned; `None` is `undefined`
    | Failed(reason: Failure)

  /**
   * `responseData.choices[0].message` once the route's check that
   * `choices`, `choices[0]` and the message are all truthy passes. Only an
   * object with a `choices` field can have one, and a reply shaped like
   * `{"choices": [{"message": m}, …]}` has `m` when `m` is truthy. A string
   * `choices` is truthy and has a first character, but no `message`.
   */
  function Message(body: Json): (m: Option<Json>)
    ensures m.Some? ==> Truthy(m.value) && body.JObj? && "choices" in body.fields
    ensures ReplyShaped(body) ==>
      var message := body.fields["choices"].items[0].fields["message"];
      m == if Truthy(message) then Some(message) else None
    ensures body.JObj? && "choices" in body.fields && body.fields["choices"].JStr? ==> m.None?
  {
    if body.JNull? then None
    else
      var choices := Prop(body, "choices");
      if !TruthyField(choices) then None
      else
        var first := Prop(choices.value, "0");
        if !TruthyField(first) then None
        else
          var message := Prop(first.value, "message");
          if TruthyField(message) then message else None
  }

  /** `{"choices": [{"message": …, …}, …], …}`: the shape of a vendor reply. */
  predicate ReplyShaped(body: Json) {
    && body.JObj? && "choices" in body.fields
    && body.fields["choices"].JArr? && |body.fields["choices"].items| > 0
    && body.fields["choices"].items[0].JObj? && "message" in body.fields["choices"].items[0].fields
  }

  /** The classification of a body, in the order the route tests it. */
  function Classify(text: string, parsed: Option<Json>): (r: Outcome)
    ensures Blank(text) ==> r == Failed(EmptyBody)
    ensures r.Generated? && parsed.None? ==>
      r.roast == Some(JStr(text)) && !Contains(text, "error") && (Contains(text, "【") || Contains(text, "**"))
    ensures r.Generated? && parsed.Some? ==>
      Message(parsed.value).Some? && r.roast == Prop(Message(parsed.value).value, "content")
    ensures !Blank(text) && parsed.Some? && Message(parsed.value).Some? ==> r.Generated?
    ensures !Blank(text) && parsed.None? && Contains(text, "error") ==> r.Failed? && r.reason.VendorError?
    ensures r.Failed? && r.reason.VendorError? ==> StartsWith(text, r.reason.excerpt) && |r.reason.excerpt| <= MaxExcerpt
  {
    if Blank(text) then Failed(EmptyBody)
    else match parsed
      case None =>
        if Contains(text, "error") || Contains(text, "An error occurred") then
          Failed(VendorError(text[..Min(|text|, MaxExcerpt)]))
        else if Contains(text, "【") || Contains(text, "**") then Generated(Some(JStr(text)))
        else Failed(Unparsable)
      case Some(body) =>
        if body.JNull? then Failed(NullResponse)
        else match Message(body)
          case None => Failed(BadShape)
          case Some(message) => Generated(Prop(message, "content"))
  }

  /**
   * A non-blank reply shaped like `{"choices": [{"message": m}, …]}` with a
   * truthy `m` is accepted, and the roast is `m.content`.
   */
  lemma ShapedReplyGenerates(text: string, body: Json)
    requires !Blank(text) && ReplyShaped(body)
    requires Truthy(body.fields["choices"].items[0].fields["message"])
    ensures Classify(text, Some(body))
      == Generated(Prop(body.fields["choices"].items[0].fields["message"], "content"))
  {
  }

  /** The second test of the error branch adds nothing: the phrase contains `error`. */
  lemma ErrorPhraseContainsError(text: string)
    requires Contains(text, "An error occurred")
    ensures Contains(text, "error")
  {
    var k :| 0 <= k <= |text| && OccursAt(text, "An error occurred", k);
    assert text[k + 3..k + 8] == text[k..k + 17][3..8] == "error";
    assert OccursAt(text, "error", k + 3);
  }

  /**
   * An unparsable body is accepted verbatim exactly when it is not blank,
   * does not mention `error`, and carries the requested markup.
   */
  lemma RawTextAccepted(text: string)
    ensures Classify(text, None).Generated? <==>
      !Blank(text) && !Contains(text, "error") && (Contains(text, "【") || Contains(text, "**"))
  {
    if Contains(text, "An error occurred") {
      ErrorPhraseContainsError(text);
    }
  }

  /** What one attempt does: the prompt it sends, if any, and its outcome. */
  datatype Attempt = Attempt(request: Option<string>, outcome: Outcome)

  /**
   * `generateRoast(blogContent)`: without a key nothing is sent; otherwise the
   * content is cleaned, cut to the prompt limit and sent, and the reply
   * classified.
   */
  function GenerateRoast(apiKey: Option<string>, blogContent: string, reply: LlmReply): (r: Attempt)
    ensures r.request.None? <==> !HasKey(apiKey)
    ensures r.request.None? ==> r.outcome == Failed(MissingKey)
    ensures r.request.Some? ==> r.request.value == BuildPrompt(Clean(blogContent))
    ensures HasKey(apiKey) && reply.TransportFailure? ==> r.outcome == Failed(Transport)
    ensures HasKey(apiKey) && reply.Reply? ==> r.outcome == Classify(reply.text, reply.parsed)
    ensures r.outcome.Generated? ==> HasKey(apiKey) && reply.Reply? && !Blank(reply.text)
  {
    if !HasKey(apiKey) then Attempt(None, Failed(MissingKey))
    else
      var request := Some(BuildPrompt(Clean(blogContent)));
      match reply
      case TransportFailure => Attempt(request, Failed(Transport))
      case Reply(text, parsed) => Attempt(request, Classify(text, parsed))
  }

  /**
   * The route hands `generateRoast` content it has already cleaned, and
   * `generateRoast` cleans it again. Since cleaning is not idempotent, the
   * prompt can differ from one built from the once-cleaned page: for a page
   * `[[a](b)](c)` the model is sent `a`, not `[a](c)`.
   */
  lemma PromptCleansTwice(apiKey: Option<string>, reply: LlmReply, a: string, b: string, c: string)
    requires HasKey(apiKey)
    requires a != [] && b != [] && c != [] && Plain(a) && Plain(b) && Plain(c)
    ensures var page := "[[" + a + "](" + b + ")](" + c + ")";
      && GenerateRoast(apiKey, Clean(page), reply).request == Some(BuildPrompt(a))
      && BuildPrompt(a) != BuildPrompt(Clean(page))
  {
    var page := "[[" + a + "](" + b + ")](" + c + ")";
    var once := "[" + a + "](" + c + ")";
    CleanNotIdempotent(a, b, c);
    var n := |PromptPrefix|;
    assert BuildPrompt(a)[n] == a[0] by {
      assert BuildPrompt(a)[n..][0] == a[0];
    }
    assert BuildPrompt(once)[n] == '[' by {
      assert BuildPrompt(once)[n..][0] == once[0];
    }
    assert a[0] != '[' by {
      assert a[0] in a;
    }
  }
}
