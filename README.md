# Xiaohongshu roast: a verified model of the analysis route and the home page

The app takes the link to a Xiaohongshu (小红书) blogger's profile and returns
a roast of that blogger written by a language model. This project models the
two files that hold its logic.

`src/app/api/analyze/route.ts` is the `POST /api/analyze` route. It:
- rewrites the profile URL into the address of a reading proxy;
- fetches the page;
- extracts the blogger's nickname and avatar through a cascade of patterns;
- strips links, URLs, query strings and image markers from the page;
- asks the model for a roast, with at most three attempts and a pause after each failed attempt but the last;
- answers every outcome with HTTP 200 and a body whose `success` flag tells the outcomes apart.

`src/app/page.tsx` is the home page. Its submit handler:
- checks the URL;
- posts it to the route;
- shows the roast with runs of line breaks cut to two, or an error.

Its renderer turns each line of the roast into a heading, a paragraph with
bold parts, a plain paragraph or a spacer.

The modules follow the source:

| module | models |
|---|---|
| `Wrappers` | `Option` and `Result` |
| `Text` | the JavaScript string operations the code uses (`startsWith`, `includes`, `indexOf`, `trim`, `split`, `join`) over sequences of `char` |
| `Json` | a parsed JSON value, with JavaScript property access, truthiness and `String()` |
| `Fetcher` | the proxy address |
| `Sanitizer` | `cleanContentForAI`: each regular expression is a scanner, and the passes are chained in source order |
| `Generator` | the prompt and the classification of the vendor's reply in `generateRoast` |
| `ExtractorPatterns` | every regular expression of `extractBloggerInfo` as a matcher at one index, following JavaScript's backtracking order (greedy and lazy runs, leftmost match) |
| `Extractor` | the cascade, written twice: as functions, and as the route's loops with `break`, which are proved equal to those functions |
| `AnalyzeRoute` | `POST`: a method with the retry loop, proved equal to a function from inputs to answer and event trace |
| `RoastView` | the line classifier and the card header |
| `HomePage` | the page state as a class, `handleSubmit` as a method on it proved against a function, and lemmas that join the page to the route |

Everything outside the program arrives as a parameter:
- the parsed request body;
- the proxy, a function from address to page, or `None` when the request fails or its status is not 2xx;
- the API key;
- the vendor's reply for each attempt: the body text and what `JSON.parse` made of it;
- for the page, the reply to its POST.

The route's effects are a trace of events: the proxy request, each call of
`generateRoast` with the prompt it sent, and each one-second pause.

## Model

| member | source | states |
|---|---|---|
| `Text.Find` | src/app/page.tsx:191 | the first occurrence of a pattern at or after a start index, or none at all |
| `Text.FindIffContains` | src/app/page.tsx:187 | `indexOf` finds the pattern exactly when `includes` holds |
| `Text.Trim` | src/app/page.tsx:203 | `trim()` cuts a leading and a trailing run of white space and nothing else: the result is a slice of the string with only white space outside it; it is empty exactly for a blank string, otherwise it neither starts nor ends with white space; a string without white space is unchanged |
| `Text.Split` | src/app/page.tsx:185 | `split(sep)` gives at least one part, and no part contains the separator; `Text.SplitCutsLeftmost`, `Text.JoinSplit` and `Text.SplitUnique` pin the parts down completely |
| `Text.JoinSplit` | src/app/page.tsx:192-198 | joining the parts of a split with the separator gives back the string |
| `Text.SplitCount` | src/app/page.tsx:185 | splitting at a character gives one more part than there are occurrences of it |
| `Text.SplitCutsLeftmost` | src/app/page.tsx:191-192 | every cut of `split` is at the leftmost occurrence of the separator in what remains: a part followed by the separator holds the separator only at its end |
| `Text.SplitUnique` | src/app/page.tsx:191-192 | any parts that join back to the string, each cut at the leftmost occurrence and the last free of the separator, are exactly the parts of `split` |
| `Text.SplitMarkers` | src/app/page.tsx:191 | `"****".split("**")` is three empty parts, more than the two that the bold test asks for |
| `Json.Prop` | src/app/api/analyze/route.ts:119 | property access: an object has a value exactly for its own keys, and it is that field; an array has only `"0"`, its first item, when it is not empty; a string has only `"0"`, its first character, when it is not empty; `null`, booleans and numbers give `undefined` |
| `Json.ToText` | src/app/page.tsx:41 | `String(x)` of a truthy value that is not an array is never empty |
| `Fetcher.SchemeOf` | src/app/api/analyze/route.ts:10 | the scheme is `https://`, `http://` or nothing, it is a prefix of the URL, and it is nothing exactly when neither scheme starts the URL |
| `Fetcher.StripScheme` | src/app/api/analyze/route.ts:10-13 | the URL is its scheme followed by the remainder: nothing else is removed |
| `Fetcher.ProxyUrl` | src/app/api/analyze/route.ts:9-16 | the address starts with `https://r.jina.ai/` and continues with the URL minus its scheme |
| `Fetcher.OneSchemeRemoved` | src/app/api/analyze/route.ts:10-16 | only one leading scheme is removed: `https://` + rest goes to the proxy base + rest, even when rest starts with another scheme |
| `Fetcher.SchemeIrrelevant` | src/app/api/analyze/route.ts:9-16 | a URL with `https://`, with `http://` and without a scheme all go to the same address |
| `Sanitizer.NonDelimRun` | src/app/api/analyze/route.ts:148 | the greedy run of `[^\s<>"']`: every character in it is not a delimiter, and the one after it is |
| `Sanitizer.LinkTail` | src/app/api/analyze/route.ts:142 | the `]` closing the label is the first `]` after the label's start, followed by `(`, a non-empty target and `)` |
| `Sanitizer.ReplaceLinks` | src/app/api/analyze/route.ts:142 | the link pass never lengthens the text |
| `Sanitizer.ReplaceImages` | src/app/api/analyze/route.ts:145 | the image pass never lengthens the text |
| `Sanitizer.FirstMarker` | src/app/api/analyze/route.ts:148-155 | the first alternative, in the pattern's order, that matches here (no earlier one does), or a proof that none does |
| `Sanitizer.Strip` | src/app/api/analyze/route.ts:148-155 | a removal pass never lengthens the text |
| `Sanitizer.NewlineRun` | src/app/api/analyze/route.ts:158 | the maximal run of `\n` at the start of the text |
| `Sanitizer.CollapseNewlines` | src/app/api/analyze/route.ts:158 | the newline pass never lengthens the text; `Sanitizer.CollapseRun` gives its value run by run |
| `Sanitizer.Clean` | src/app/api/analyze/route.ts:135-166 | the six passes in order; the output is never longer than the input |
| `Sanitizer.CollapseKeepsFirst` | src/app/api/analyze/route.ts:158 | the newline pass keeps a first character that is not a newline |
| `Sanitizer.CollapseLeavesNoTriple` | src/app/api/analyze/route.ts:158 | after the newline pass no three newlines follow each other |
| `Sanitizer.CollapseIdentity` | src/app/api/analyze/route.ts:158 | a text without three newlines in a row (so runs of one or two) is left unchanged |
| `Sanitizer.CollapseRun` | src/app/api/analyze/route.ts:158 | wherever a run of `n` newlines sits between other characters, it becomes exactly two newlines when `n` is three or more and stays as it is otherwise, and the text on each side is collapsed on its own |
| `Sanitizer.CollapseMixedRuns` | src/app/page.tsx:48 | in one text a run of two newlines is kept while a run of three becomes two: `a\n\nb\n\n\nc` gives `a\n\nb\n\nc`, with `a`, `b` and `c` collapsed on their own, whenever no newline touches the runs from outside |
| `Sanitizer.CollapseOnlyDropsNewlines` | src/app/api/analyze/route.ts:158 | the newline pass removes newlines and nothing else: the other characters keep their order |
| `Sanitizer.LinkBecomesLabel` | src/app/api/analyze/route.ts:142 | `[text](url)` with a non-empty, `]`-free text becomes `text`, and the rest is processed on its own |
| `Sanitizer.NoBracketUntouched` | src/app/api/analyze/route.ts:142-145 | a text without `]` passes both Markdown passes unchanged |
| `Sanitizer.ImageWithAltKeepsBang` | src/app/api/analyze/route.ts:142-145 | because links go first, `![alt](url)` with a non-empty alt comes out as `!alt` |
| `Sanitizer.EmptyAltImageVanishes` | src/app/api/analyze/route.ts:145 | `![](url)` is removed entirely by the image pass |
| `Sanitizer.StripKeepsLeadingRun` | src/app/api/analyze/route.ts:148-155 | a removal pass leaves the first non-delimiter run of its output as it was in the input |
| `Sanitizer.StripLeavesNoMarked` | src/app/api/analyze/route.ts:148-155 | after a removal pass no position starts a match of its pattern |
| `Sanitizer.StripKeepsNoMarked` | src/app/api/analyze/route.ts:148-155 | a removal pass does not create a match of another pattern that was absent |
| `Sanitizer.StripUnmatchedIdentity` | src/app/api/analyze/route.ts:148-155 | a removal pass leaves a text without matches unchanged |
| `Sanitizer.CollapseKeepsNoMarked` | src/app/api/analyze/route.ts:158 | the newline pass does not create a URL or query match |
| `Sanitizer.NoQueryTailNoQueryImageView` | src/app/api/analyze/route.ts:151-155 | a text without a `?` tail has no `?imageView2` tail either |
| `Sanitizer.CleanGuarantees` | src/app/api/analyze/route.ts:135-166 | the cleaned text has no three newlines in a row, no `http(s)://` and no `?` followed by a non-delimiter, and the `?imageView2` pass never removes anything |
| `Sanitizer.NoOpenBracketUntouched` | src/app/api/analyze/route.ts:142 | a text without `[` passes the link pass unchanged |
| `Sanitizer.NoBangUntouched` | src/app/api/analyze/route.ts:145 | a text without `!` passes the image pass unchanged |
| `Sanitizer.NoMarkerStartUntouched` | src/app/api/analyze/route.ts:148-155 | a text without the first character of any alternative passes a removal pass unchanged |
| `Sanitizer.CleanStopsAfterLinks` | src/app/api/analyze/route.ts:142-158 | when the link pass leaves no `!`, `h`, `?`, pipe or newline, cleaning is the link pass alone |
| `Sanitizer.OuterLinkLeavesInner` | src/app/api/analyze/route.ts:142 | `[[a](b)](c)` becomes `[a](c)`: the outer link's label ends at the inner `]` |
| `Sanitizer.PlainLinkLeavesLabel` | src/app/api/analyze/route.ts:142 | `[a](c)` becomes `a` |
| `Sanitizer.CleanNotIdempotent` | src/app/api/analyze/route.ts:135-166 | cleaning is not idempotent: `[[a](b)](c)` cleans to `[a](c)`, which cleans to `a` |
| `Generator.BuildPrompt` | src/app/api/analyze/route.ts:53-64 | the prompt is the fixed instructions followed by at most the first 18000 characters of the content |
| `Generator.Message` | src/app/api/analyze/route.ts:119 | only an object with `choices` has a message, and it is truthy; a reply `{"choices": [{"message": m}, …]}` has `m` exactly when `m` is truthy; a string `choices` has none |
| `Generator.Classify` | src/app/api/analyze/route.ts:86-124 | precedence: a blank body fails; an unparsable body containing `error` fails with at most its first 200 characters; otherwise an unparsable body with `【` or `**` is the roast verbatim; a parsed body yields `choices[0].message.content` exactly when that message is truthy |
| `Generator.ErrorPhraseContainsError` | src/app/api/analyze/route.ts:105 | the second phrase the code tests for contains the first, so only `error` matters |
| `Generator.RawTextAccepted` | src/app/api/analyze/route.ts:89-115 | an unparsable body is taken as the roast exactly when it is not blank, lacks `error` and has `【` or `**` |
| `Generator.GenerateRoast` | src/app/api/analyze/route.ts:39-130 | without a key nothing is sent and the attempt fails; with one the prompt is built from the content cleaned again, a transport failure fails, and a reply is judged by `Generator.Classify`; a roast needs a key and a non-blank reply |
| `Generator.ShapedReplyGenerates` | src/app/api/analyze/route.ts:118-124 | a non-blank reply `{"choices": [{"message": m}, …]}` with a truthy `m` is accepted and its roast is `m.content` |
| `Generator.PromptCleansTwice` | src/app/api/analyze/route.ts:49 | the second cleaning inside `generateRoast` changes the prompt: `[[a](b)](c)` cleaned by the route is sent as `a`, not as `[a](c)` |
| `ExtractorPatterns.FirstMatch` | src/app/api/analyze/route.ts:316 | `match` finds the leftmost index where the pattern matches, or none |
| `ExtractorPatterns.LazyUntil` | src/app/api/analyze/route.ts:308-310 | a lazy `.*?` stops at the first index where the terminator matches, never crossing a line terminator; it finds no stop only when a line terminator comes before every later match of the terminator |
| `ExtractorPatterns.LazyCapture` | src/app/api/analyze/route.ts:308-310 | the lazy capture occurs at its start, is followed by the terminator and holds no line terminator |
| `ExtractorPatterns.TitleTagAt` | src/app/api/analyze/route.ts:308 | a match starts with `<title>` and its capture is followed by ` - 小红书` (with optional white space) or `</title>` |
| `ExtractorPatterns.H1At` | src/app/api/analyze/route.ts:309 | a match starts with `<h1`, and its capture follows a `>` and is followed by `</h1>` |
| `ExtractorPatterns.ClassTitleAt` | src/app/api/analyze/route.ts:310 | a match of the `class="…title…"` part starts with `class="`, and its capture follows a `>` and is followed by `</div>` |
| `ExtractorPatterns.TitleClassValue` | src/app/api/analyze/route.ts:310 | a match of the attribute value and the rest of the tag has its capture after a `>` at or after the value's start, followed by `</div>` |
| `ExtractorPatterns.DivContent` | src/app/api/analyze/route.ts:310 | the capture of `[^>]*>(.*?)<\/div>` follows a `>` at or after the start index and is followed by `</div>` |
| `ExtractorPatterns.DivAttrFrom` | src/app/api/analyze/route.ts:310 | the greedy `[^>]*` tries the class attribute at the last possible index first: a result is the match at some index after which no index up to the end of the tag matches, and no result means no index in range matches |
| `ExtractorPatterns.DivAt` | src/app/api/analyze/route.ts:310 | a match starts with `<div`, with no `>` between the tag and the class attribute |
| `ExtractorPatterns.ParenSuffix` | src/app/api/analyze/route.ts:333 | the optional `（…）` group is absent, or full-width parentheses around word characters |
| `ExtractorPatterns.DirectAt` | src/app/api/analyze/route.ts:333 | a match starts with `Title:`, and the capture is non-empty and made of word characters and full-width parentheses |
| `ExtractorPatterns.LinkTextAt` | src/app/api/analyze/route.ts:346 | a match starts with `>`, and its non-empty capture from the character class is followed by `</a>` or `</span>` |
| `ExtractorPatterns.LinkCaptureAt` | src/app/api/analyze/route.ts:346 | the lazy capture is the whole non-empty run of class characters at the index, and the run is followed by `</a>` or `</span>`; the match ends after that terminator |
| `ExtractorPatterns.LinkTexts` | src/app/api/analyze/route.ts:346-347 | every capture of `matchAll` is non-empty and made of the class's characters |
| `ExtractorPatterns.UncleFrom` | src/app/api/analyze/route.ts:368 | the emergency capture ends with `叔` and is preceded by at most the Han run that was scanned |
| `ExtractorPatterns.UncleAt` | src/app/api/analyze/route.ts:368 | the emergency capture occurs in the page, is 2 to 5 characters long and ends with `叔` |
| `ExtractorPatterns.AvatarDirOnHost` | src/app/api/analyze/route.ts:378-380 | the avatar directory lies on the avatar host |
| `ExtractorPatterns.AvatarFileAt` | src/app/api/analyze/route.ts:378 | a match of the first avatar pattern lies in the directory and ends in a lower-case extension |
| `ExtractorPatterns.AvatarIdAt` | src/app/api/analyze/route.ts:379 | a match of the second avatar pattern lies in the directory and ends in an alphanumeric id |
| `ExtractorPatterns.AvatarAnyAt` | src/app/api/analyze/route.ts:380 | a match of the third avatar pattern starts with `https://sns-avatar` and holds no quote |
| `Extractor.Capture` | src/app/api/analyze/route.ts:316 | `html.match(p)[1]` exists exactly when the pattern matches somewhere, and is the capture at the leftmost matching index |
| `Extractor.CaptureIs` | src/app/api/analyze/route.ts:316 | a match at an index before which the pattern matches nowhere is what `match` returns |
| `Extractor.TitleStage` | src/app/api/analyze/route.ts:307-327 | the first title pattern, in list order, whose capture trims to something non-empty gives the nickname, trimmed (every earlier capture is unusable); none does exactly when no capture is usable |
| `Extractor.DirectStage` | src/app/api/analyze/route.ts:330-342 | the `Title:` capture, which trimming leaves unchanged; nothing exactly when the pattern does not match or captures nothing |
| `Extractor.BeforeParen` | src/app/api/analyze/route.ts:352 | the text before the first `（` or `(`: a prefix without either, shorter than the text exactly when the text has one |
| `Extractor.LinkStage` | src/app/api/analyze/route.ts:344-365 | the link stage's nickname is the one it started from, a link text trimmed, or the trimmed part of a link text before its parenthesis |
| `Extractor.UncleStage` | src/app/api/analyze/route.ts:367-373 | the emergency pattern changes only the default nickname, and changes it exactly when it has a non-empty match; a new nickname is 2 to 5 characters of the page ending with `叔` |
| `Extractor.NicknameOf` | src/app/api/analyze/route.ts:294-373 | the cascade's nickname is never empty |
| `Extractor.FirstFound` | src/app/api/analyze/route.ts:377-390 | the first avatar pattern, in list order, with a non-empty match gives that match (every earlier match is empty or missing); nothing exactly when no pattern has a non-empty match |
| `Extractor.AvatarOf` | src/app/api/analyze/route.ts:375-390 | the avatar is `/default-avatar.svg` exactly when no avatar pattern has a non-empty match, and otherwise starts with `https://sns-avatar` |
| `Extractor.BloggerOf` | src/app/api/analyze/route.ts:294-397 | the extracted blogger has a non-empty nickname, and the default avatar or one on `https://sns-avatar` |
| `Extractor.FindTitle` | src/app/api/analyze/route.ts:313-327 | the loop with `break` sets `titleFound` exactly when the title stage finds a nickname, and leaves the nickname it found or the default |
| `Extractor.PickFromLinks` | src/app/api/analyze/route.ts:349-363 | the loop over link texts computes the link stage |
| `Extractor.FindAvatar` | src/app/api/analyze/route.ts:383-390 | the loop over avatar patterns computes the avatar stage |
| `Extractor.ExtractBloggerInfo` | src/app/api/analyze/route.ts:294-397 | the whole extraction computes the cascade, the nickname is never empty, and the avatar is the default or on `https://sns-avatar` |
| `Extractor.WordsHaveNoSpace` | src/app/api/analyze/route.ts:338 | trimming the direct capture changes nothing |
| `Extractor.LinkTextTrimmed` | src/app/api/analyze/route.ts:359 | trimming a link text changes nothing |
| `Extractor.LinkStageNonEmpty` | src/app/api/analyze/route.ts:344-364 | the link stage never produces an empty nickname |
| `Extractor.AvatarCaptureOnHost` | src/app/api/analyze/route.ts:377-381 | every avatar pattern's match starts with `https://sns-avatar` |
| `Extractor.TitleWins` | src/app/api/analyze/route.ts:313-373 | a title other than the default nickname is the final nickname: no later stage runs |
| `Extractor.LinkStageAfterPlain` | src/app/api/analyze/route.ts:349-363 | once a plain link text has replaced the default, only a parenthesised text can replace it |
| `Extractor.LinkStageChoice` | src/app/api/analyze/route.ts:344-364 | the link stage yields the first parenthesised text's prefix, else the first plain text, else the default: a parenthesised match overrides an earlier plain one |
| `Extractor.DefaultUnlessMatched` | src/app/api/analyze/route.ts:296-373 | when no stage matches the nickname stays `未知博主` |
| `Extractor.TitleTagNickname` | src/app/api/analyze/route.ts:307-327 | a page whose first `<title>` holds a title without `<`, `-` or line break, trimming to something other than `未知博主`, gets that trimmed title as nickname |
| `Extractor.AvatarFileFound` | src/app/api/analyze/route.ts:375-390 | a page whose first avatar-directory address goes on with an alphanumeric id, a dot and a lower-case extension gets that address as avatar |
| `AnalyzeRoute.BloggerJson` | src/app/api/analyze/route.ts:274 | the blogger object carries the nickname and the avatar as strings |
| `AnalyzeRoute.ResponseJson` | src/app/api/analyze/route.ts:272-276 | the answer body has `success` and exactly the fields that are present, with their values |
| `AnalyzeRoute.Respond` | src/app/api/analyze/route.ts:174-289 | `success` is false exactly when the answer carries an error; a success carries a blogger with a non-empty nickname; a blogger is reported exactly when the page was fetched, and it is that page's extraction; the proxy request, when made, is the first event; an unreadable body is answered with its own message and no event |
| `AnalyzeRoute.Answer` | src/app/api/analyze/route.ts:252-276 | once the page is fetched the answer succeeds exactly when some attempt succeeds, carries an error exactly when it fails, and always carries the blogger |
| `AnalyzeRoute.Fetched` | src/app/api/analyze/route.ts:204-276 | after a successful fetch the answer and the trace depend only on the extracted blogger and the three attempts |
| `AnalyzeRoute.FirstSuccess` | src/app/api/analyze/route.ts:242-266 | the first attempt, at most the third, that yields a roast, with every attempt before it failing; none when all three fail |
| `AnalyzeRoute.Post` | src/app/api/analyze/route.ts:174-289 | the route's code gives exactly the specified answer and event trace for every input |
| `AnalyzeRoute.AnswerPage` | src/app/api/analyze/route.ts:204-276 | after the fetch, extraction, cleaning and the retry loop answer with the specified response and generation trace |
| `AnalyzeRoute.RetryGenerate` | src/app/api/analyze/route.ts:238-266 | the retry loop gives up exactly when no attempt succeeds, otherwise returns the first successful roast, and produces the specified trace |
| `AnalyzeRoute.FirstSuccessIs` | src/app/api/analyze/route.ts:242-266 | an attempt that succeeds after failures only is the first success |
| `AnalyzeRoute.NoSuccessFrom` | src/app/api/analyze/route.ts:242-266 | when no attempt succeeds there is no first success |
| `AnalyzeRoute.RetryCounts` | src/app/api/analyze/route.ts:242-265 | `n` failed attempts call `generateRoast` `n` times and pause `n` times |
| `AnalyzeRoute.GenerationCounts` | src/app/api/analyze/route.ts:242-266 | the attempts made are the first success or three, with one pause fewer |
| `AnalyzeRoute.BoundedRetries` | src/app/api/analyze/route.ts:240-263 | a request calls `generateRoast` at most three times and pauses at most twice |
| `AnalyzeRoute.FirstSuccessAnswers` | src/app/api/analyze/route.ts:272-276 | the first successful attempt's roast is answered with `success: true` and the extracted blogger |
| `AnalyzeRoute.ShapedFirstReplyAnswers` | src/app/api/analyze/route.ts:243-276 | with a key, a first vendor reply `{"choices": [{"message": m}, …]}` with a truthy `m` is answered with `success: true`, the extracted blogger and `m.content` |
| `AnalyzeRoute.AllFailuresAnswer` | src/app/api/analyze/route.ts:252-259 | three failures are answered with `success: false`, the fixed error, the extracted blogger and the fallback roast |
| `AnalyzeRoute.NoKeyNoRequest` | src/app/api/analyze/route.ts:43-46 | without an API key no attempt sends a request, and the route answers with the all-attempts-failed error |
| `AnalyzeRoute.SilentGeneration` | src/app/api/analyze/route.ts:242-266 | attempts that fail without sending anything give no roast and no event carrying a prompt |
| `AnalyzeRoute.NoRequestsInRetries` | src/app/api/analyze/route.ts:242-265 | failed attempts that send nothing leave no prompt in the trace |
| `AnalyzeRoute.FetchFailureAnswers` | src/app/api/analyze/route.ts:190-202 | a failed fetch is answered with `success: false` and the fetcher's message, and no generation is attempted |
| `RoastView.ClassifyLine` | src/app/page.tsx:185-207 | a line is a heading exactly when it starts with `【` and contains `】`, and a spacer exactly when it is blank; it is a bold paragraph exactly when it is not a heading and splitting at `**` gives more than two parts, and then its spans are those parts with the odd ones bold, so joining them with `**` gives back the line |
| `RoastView.Render` | src/app/page.tsx:185-208 | one block per line of `split('\n')`: as many blocks as there are `\n` plus one, block `i` being line `i`'s classification |
| `RoastView.SingleMarkerIsPlain` | src/app/page.tsx:191 | a line with a single `**` and no other asterisk is a plain paragraph that keeps the marker |
| `RoastView.HeaderName` | src/app/page.tsx:167 | the header shows the nickname, or `未知博主` when it is empty or absent, and is never empty |
| `RoastView.AvatarPlaceholder` | src/app/page.tsx:160 | the placeholder is one character: the first of the shown nickname, or `?` when there is no nickname |
| `HomePage.ErrorField` | src/app/page.tsx:41 | the message source is always truthy: the body's `error` when that is truthy, else `分析失败，请稍后再试` |
| `HomePage.RoastField` | src/app/page.tsx:46 | the text to process is the body's `roast` when that is truthy, else the empty string |
| `HomePage.Submit` | src/app/page.tsx:19-59 | a URL without `xiaohongshu.com` fails at once and nothing is awaited; a shown roast needs an ok reply that parsed, has no three newlines in a row, and comes with a truthy blogger or none |
| `HomePage.Home.constructor` | src/app/page.tsx:12-16 | the initial state: empty URL, not loading, no result, no error, no blogger |
| `HomePage.Home.SetUrl` | src/app/page.tsx:111 | typing changes the URL and nothing else |
| `HomePage.Home.HandleSubmit` | src/app/page.tsx:19-59 | the handler shows what `Submit` specifies, posts the URL exactly when it passes the check, is loading with the old answer cleared at every wait, and is not loading at the end |
| `HomePage.FailureIsShown` | src/app/page.tsx:53-54 | a failed submission shows a non-empty error, unless the body's `error` is an array |
| `HomePage.EmptyArrayErrorIsSilent` | src/app/page.tsx:39-41 | a non-ok reply `{"error": []}` fails with the empty message, so the page shows nothing |
| `HomePage.ShownRoastStable` | src/app/page.tsx:48 | a second newline collapse leaves a shown roast unchanged |
| `HomePage.FetchFailureShowsNothing` | src/app/page.tsx:39-52 | the route's fetch-failure answer (HTTP 200, `success: false`) shows neither a roast nor an error, because the page ignores `success` and `error` on an ok reply |
| `HomePage.RouteRoastShown` | src/app/page.tsx:44-52 | a roast and blogger sent by the route are shown, with the roast's newline runs collapsed |
| `HomePage.AllFailuresShowFallback` | src/app/page.tsx:44-52 | after three failed attempts the page shows the route's fallback roast, not its error |
| `HomePage.BloggerHeader` | src/app/page.tsx:146-167 | a blogger with a non-empty nickname and avatar is shown under that nickname, with the image, and with its first letter as placeholder |
| `HomePage.ExtractedBloggerHeader` | src/app/page.tsx:146-167 | every blogger the route extracts is shown under its own nickname and with an avatar image |

## Left out

- Console logging, `Date.now()` timing and the reduction percentage in `cleanContentForAI`: they only feed the log. The percentage divides by zero on empty content (route.ts:162), which only affects the log.
- The network calls, `JSON.parse`, `request.json()` and the one-second `setTimeout`: these arrive as parameters, and each pause is one event in the trace.
- The vendor request's other fields (`model`, `temperature`, `max_tokens`, headers): only the prompt is modelled. `process.env.DEEPSEEK_API_KEY` is a parameter.
- `errorDetail` in the route's failure answers: it is `JSON.stringify` of an error object, and the page never reads it.
- The catch branches around `extractBloggerInfo` and `cleanContentForAI` in `POST`: neither function can throw on a string, so these branches are unreachable.
- The outer catch of `POST` is modelled only for an unreadable request body, whose message the runtime supplies. A body whose `url` is missing or not a string fails inside the fetcher's own `try` and takes the fetch-failure answer.
- `OPTIONS` and its CORS headers: a constant answer.
- The JSX markup, styles, `html2canvas` image export, clipboard copy and its toast, and `toLocaleString` dates in page.tsx.
- The other files of the repository: the Firebase and Firestore helpers, the test, fetch and generate routes, the layout and small client components, and the Next.js configuration. None is part of this model.
- The runtime's own error messages (`Cannot read properties of null …`, `… is not a function`): they are constants with V8's wording. The page's `"发生未知错误"` branch cannot be reached, because everything thrown on the way is an `Error`.
- React's batching of state updates: the handler is modelled as one sequential method, and the states at the two `await`s are recorded as snapshots.
- RoastView.HeaderName: it reads a `nickname` that is not a string (possible only when the route's answer is not the route's own) as absent. The page would show such a value or fail when rendering it.
- Strings are sequences of `char`, and a `char` is a Unicode scalar value. A character outside the Basic Multilingual Plane (an emoji, say) is one `char`, where JavaScript counts two UTF-16 code units. Lengths, `substring` and index `"0"` of a string (`Json.Prop`) differ from JavaScript for such characters; the two members below are where this matters.
- Generator.BuildPrompt: the 18000 limit counts `char`s, while `substring(0, 18000)` counts UTF-16 units. Content with characters outside the Basic Multilingual Plane puts more text in the model's prompt than in the route's, and the route can cut such a character in half at the limit, which the model cannot. The same holds for the 200-character excerpt in `Generator.Classify`.
- RoastView.AvatarPlaceholder: for a nickname that starts with a character outside the Basic Multilingual Plane, the model's placeholder is that whole character, while `charAt(0)` gives only the first half of its surrogate pair.
- Regular expressions are written out as scanners for exactly the patterns the code uses. No general regular-expression engine is modelled.
- A number in a JSON value is kept as the text JavaScript prints for it, since the code only tests numbers for truthiness and converts them to strings.
- Two behaviours of the code are modelled as written, although a reader might expect otherwise. Cleaning is not idempotent (`Sanitizer.CleanNotIdempotent`). `generateRoast` never looks at the vendor's HTTP status, so a non-2xx body is classified like any other.
