/**
 * `extractBloggerInfo`: the nickname and the avatar of the blogger, found in
 * the proxied page by a fixed cascade of patterns. The method keeps the loops
 * of the route (a `for` over the title patterns with `break`, the link-text
 * loop, the `for` over the avatar patterns with `break`); the functions above
 * it state what the cascade computes, and the lemmas below state what it
 * promises. Nothing in it can throw, so the route's `catch` around it is never
 * taken.
 */
module Extractor {
  import opened Wrappers
  import opened Text
  import opened ExtractorPatterns

  const DefaultNickname: string := "未知博主"
  const DefaultAvatar: string := "/default-avatar.svg"

  datatype BloggerInfo = BloggerInfo(nickname: string, avatar: string)

  /** A matcher that tries one pattern at one index and yields its capture. */
  type Pattern = (string, nat) -> Option<string>

  /** The title patterns, in the order they are tried. */
  const TitlePatterns: seq<Pattern> := [TitleTagAt, H1At, DivAt]

  /** The avatar patterns, in the order they are tried. */
  const AvatarPatterns: seq<Pattern> := [AvatarFileAt, AvatarIdAt, AvatarAnyAt]

  /** `pattern` matches at `k` and at no index before it. */
  predicate LeftmostAt(html: string, pattern: Pattern, k: nat) {
    k <= |html| && pattern(html, k).Some? && forall j | 0 <= j < k :: pattern(html, j).None?
  }

  /** `html.match(pattern)`, reduced to the capture of the leftmost match. */
  function Capture(html: string, pattern: Pattern): (r: Option<string>)
    ensures r.Some? <==> exists k | 0 <= k <= |html| :: pattern(html, k).Some?
    ensures r.Some? ==> exists k: nat :: LeftmostAt(html, pattern, k) && pattern(html, k) == r
  {
    match FirstMatch(html, pattern, 0)
    case Some((k, c)) =>
      assert LeftmostAt(html, pattern, k);
      Some(c)
    case None => None
  }

  // ---------------------------------------------------------------------------
  // The cascade, stage by stage

  /** A capture that passes `match && match[1] && match[1].trim()`. */
  predicate UsableTitle(c: Option<string>) {
    c.Some? && c.value != "" && Trim(c.value) != ""
  }

  /** Pattern `i` gives a usable capture, and none of the patterns before it does. */
  predicate FirstUsable(html: string, patterns: seq<Pattern>, i: nat) {
    i < |patterns| && UsableTitle(Capture(html, patterns[i]))
    && forall j | 0 <= j < i :: !UsableTitle(Capture(html, patterns[j]))
  }

  /** The first of `patterns` whose capture is usable, trimmed. */
  function TitleStage(html: string, patterns: seq<Pattern>): (r: Option<string>)
    ensures r.Some? ==> r.value != "" && exists i: nat :: FirstUsable(html, patterns, i) && r.value == Trim(Capture(html, patterns[i]).value)
    ensures r.None? <==> forall i | 0 <= i < |patterns| :: !UsableTitle(Capture(html, patterns[i]))
  {
    if patterns == [] then None
    else
      var c := Capture(html, patterns[0]);
      if UsableTitle(c) then
        assert FirstUsable(html, patterns, 0);
        Some(Trim(c.value))
      else
        var rest := TitleStage(html, patterns[1..]);
        NoUsableAfterHead(html, patterns);
        if rest.None? then rest
        else
          var i: nat :| FirstUsable(html, patterns[1..], i) && rest.value == Trim(Capture(html, patterns[1..][i]).value);
          FirstUsableAfterHead(html, patterns, i);
          rest
  }

  /** With the first pattern unusable, none is usable exactly when none after it is. */
  lemma NoUsableAfterHead(html: string, patterns: seq<Pattern>)
    requires patterns != [] && !UsableTitle(Capture(html, patterns[0]))
    ensures (forall i | 0 <= i < |patterns| :: !UsableTitle(Capture(html, patterns[i])))
        <==> (forall i | 0 <= i < |patterns[1..]| :: !UsableTitle(Capture(html, patterns[1..][i])))
  {
    assert forall i | 1 <= i < |patterns| :: patterns[i] == patterns[1..][i - 1];
  }

  /** With the first pattern unusable, the first usable one after it is the first usable one. */
  lemma FirstUsableAfterHead(html: string, patterns: seq<Pattern>, i: nat)
    requires patterns != [] && !UsableTitle(Capture(html, patterns[0])) && FirstUsable(html, patterns[1..], i)
    ensures FirstUsable(html, patterns, i + 1) && patterns[i + 1] == patterns[1..][i]
  {
    forall j | 0 <= j < i + 1 ensures !UsableTitle(Capture(html, patterns[j])) {
      if j > 0 {
        assert patterns[j] == patterns[1..][j - 1];
      }
    }
  }

  /** The direct `Title:` pattern; its capture has no white space, so trimming keeps it. */
  function DirectStage(html: string): (r: Option<string>)
    ensures r.Some? ==> r.value != "" && Capture(html, DirectAt) == r
    ensures r.None? <==> Capture(html, DirectAt).None? || Capture(html, DirectAt).value == ""
  {
    var c := Capture(html, DirectAt);
    if c.Some? && c.value != "" then
      WordsHaveNoSpace(c.value);
      Some(Trim(c.value))
    else None
  }

  /** A link text that contains an opening parenthesis, full-width or ASCII. */
  predicate HasParen(t: string) {
    '（' in t || '(' in t
  }

  /** `t.split(/[（(]/)[0]`: the text before the first opening parenthesis. */
  function BeforeParen(t: string): (r: string)
    ensures StartsWith(t, r)
    ensures '（' !in r && '(' !in r
    ensures |r| < |t| <==> HasParen(t)
  {
    if t == [] || t[0] == '（' || t[0] == '(' then []
    else [t[0]] + BeforeParen(t[1..])
  }

  /**
   * The link-text loop, from `nickname` on: a text with a parenthesis and a
   * non-blank part before it wins and ends the loop; a plain text is taken
   * only while the nickname is still the default; texts of one character are
   * skipped.
   */
  function LinkStage(texts: seq<string>, nickname: string): (r: string)
    ensures r == nickname || FromLinkText(texts, r)
  {
    if texts == [] then nickname
    else
      var t := texts[0];
      if |t| > 1 && HasParen(t) && Trim(BeforeParen(t)) != "" then
        assert Trim(BeforeParen(texts[0])) == Trim(BeforeParen(t));
        Trim(BeforeParen(t))
      else if |t| > 1 && !HasParen(t) && nickname == DefaultNickname then
        var rest := LinkStage(texts[1..], Trim(t));
        assert Trim(texts[0]) == Trim(t);
        FromLinkTextTail(texts, rest);
        rest
      else
        var rest := LinkStage(texts[1..], nickname);
        FromLinkTextTail(texts, rest);
        rest
  }

  /** `r` is one of `texts` trimmed, or the trimmed part of one before its parenthesis. */
  predicate FromLinkText(texts: seq<string>, r: string) {
    exists i | 0 <= i < |texts| :: r == Trim(texts[i]) || r == Trim(BeforeParen(texts[i]))
  }

  lemma FromLinkTextTail(texts: seq<string>, r: string)
    requires texts != []
    ensures FromLinkText(texts[1..], r) ==> FromLinkText(texts, r)
  {
    if FromLinkText(texts[1..], r) {
      var i :| 0 <= i < |texts[1..]| && (r == Trim(texts[1..][i]) || r == Trim(BeforeParen(texts[1..][i])));
      assert texts[1..][i] == texts[i + 1];
    }
  }

  /** The emergency pattern, tried only on the default nickname. */
  function UncleStage(html: string, nickname: string): (r: string)
    ensures nickname != DefaultNickname ==> r == nickname
    ensures nickname == DefaultNickname ==> (r != nickname <==> NonEmpty(Capture(html, UncleAt)))
    ensures r != nickname ==> 2 <= |r| <= 5 && r[|r| - 1] == '叔' && exists k: nat :: OccursAt(html, r, k)
  {
    if nickname == DefaultNickname then
      var c := Capture(html, UncleAt);
      if c.Some? && c.value != "" then
        UncleCaptureShape(html, c.value);
        c.value
      else nickname
    else nickname
  }

  /** The emergency capture is 2 to 5 characters ending with `叔`, found in the page, so it is not the default nickname. */
  lemma UncleCaptureShape(html: string, v: string)
    requires Capture(html, UncleAt) == Some(v)
    ensures 2 <= |v| <= 5 && v[|v| - 1] == '叔' && exists k: nat :: OccursAt(html, v, k)
    ensures v != DefaultNickname
  {
    var k := CaptureAt(html, UncleAt, v);
    UncleMatchShape(html, k, v);
    UncleNotDefault(v);
  }

  lemma UncleMatchShape(html: string, k: nat, v: string)
    requires UncleAt(html, k) == Some(v)
    ensures 2 <= |v| <= 5 && v[|v| - 1] == '叔' && OccursAt(html, v, k)
  {
  }

  lemma UncleNotDefault(v: string)
    requires v != [] && v[|v| - 1] == '叔'
    ensures v != DefaultNickname
  {
    assert DefaultNickname[|DefaultNickname| - 1] != '叔';
  }

  /** A capture is the pattern's match at some index. */
  lemma CaptureAt(html: string, pattern: Pattern, v: string) returns (k: nat)
    requires Capture(html, pattern) == Some(v)
    ensures pattern(html, k) == Some(v)
  {
    k :| LeftmostAt(html, pattern, k) && pattern(html, k) == Some(v);
  }

  /** The nickname the cascade settles on: never empty. */
  function NicknameOf(html: string): (r: string)
    ensures r != ""
  {
    var title := TitleStage(html, TitlePatterns);
    var direct := if title.Some? then None else DirectStage(html);
    var found := title.Some? || direct.Some?;
    var staged := if title.Some? then title.value else if direct.Some? then direct.value else DefaultNickname;
    LinkStageNonEmpty(LinkTexts(html, 0), staged);
    var linked := if !found && staged == DefaultNickname then LinkStage(LinkTexts(html, 0), staged) else staged;
    UncleStage(html, linked)
  }

  /** A match that passes `match && match[0]`. */
  predicate NonEmpty(c: Option<string>) {
    c.Some? && c.value != ""
  }

  /** Pattern `i` gives a non-empty match, and none of the patterns before it does. */
  predicate FirstNonEmpty(html: string, patterns: seq<Pattern>, i: nat) {
    i < |patterns| && NonEmpty(Capture(html, patterns[i]))
    && forall j | 0 <= j < i :: !NonEmpty(Capture(html, patterns[j]))
  }

  /** The first of `patterns` with a non-empty match. */
  function FirstFound(html: string, patterns: seq<Pattern>): (r: Option<string>)
    ensures r.Some? ==> r.value != "" && exists i: nat :: FirstNonEmpty(html, patterns, i) && Capture(html, patterns[i]) == r
    ensures r.None? <==> forall i | 0 <= i < |patterns| :: !NonEmpty(Capture(html, patterns[i]))
  {
    if patterns == [] then None
    else
      var c := Capture(html, patterns[0]);
      if NonEmpty(c) then
        assert FirstNonEmpty(html, patterns, 0);
        c
      else
        var rest := FirstFound(html, patterns[1..]);
        NoneNonEmptyAfterHead(html, patterns);
        if rest.None? then rest
        else
          var i: nat :| FirstNonEmpty(html, patterns[1..], i) && Capture(html, patterns[1..][i]) == rest;
          FirstNonEmptyAfterHead(html, patterns, i);
          rest
  }

  /** With the first pattern's match empty, none is non-empty exactly when none after it is. */
  lemma NoneNonEmptyAfterHead(html: string, patterns: seq<Pattern>)
    requires patterns != [] && !NonEmpty(Capture(html, patterns[0]))
    ensures (forall i | 0 <= i < |patterns| :: !NonEmpty(Capture(html, patterns[i])))
        <==> (forall i | 0 <= i < |patterns[1..]| :: !NonEmpty(Capture(html, patterns[1..][i])))
  {
    assert forall i | 1 <= i < |patterns| :: patterns[i] == patterns[1..][i - 1];
  }

  /** With the first pattern's match empty, the first non-empty one after it is the first non-empty one. */
  lemma FirstNonEmptyAfterHead(html: string, patterns: seq<Pattern>, i: nat)
    requires patterns != [] && !NonEmpty(Capture(html, patterns[0])) && FirstNonEmpty(html, patterns[1..], i)
    ensures FirstNonEmpty(html, patterns, i + 1) && patterns[i + 1] == patterns[1..][i]
  {
    forall j | 0 <= j < i + 1 ensures !NonEmpty(Capture(html, patterns[j])) {
      if j > 0 {
        assert patterns[j] == patterns[1..][j - 1];
      }
    }
  }

  /** The first avatar match, or the default picture when no pattern matches. */
  function AvatarOf(html: string): (r: string)
    ensures r == DefaultAvatar <==> FirstFound(html, AvatarPatterns).None?
    ensures r != DefaultAvatar ==> StartsWith(r, AvatarHost)
  {
    match FirstFound(html, AvatarPatterns)
    case Some(v) =>
      FoundAvatarOnHost(html, v);
      v
    case None => DefaultAvatar
  }

  /** The blogger the route reports: a non-empty nickname, and the default picture or an address on the avatar host. */
  function BloggerOf(html: string): (b: BloggerInfo)
    ensures b.nickname != ""
    ensures b.avatar == DefaultAvatar || StartsWith(b.avatar, AvatarHost)
  {
    BloggerInfo(NicknameOf(html), AvatarOf(html))
  }

  // ---------------------------------------------------------------------------
  // The route's code

  /** The `for` over the title patterns: the first usable capture, trimmed, ends the loop. */
  method FindTitle(html: string, patterns: seq<Pattern>) returns (nickname: string, titleFound: bool)
    ensures titleFound <==> TitleStage(html, patterns).Some?
    ensures nickname == TitleStage(html, patterns).GetOr(DefaultNickname)
  {
    nickname := DefaultNickname;
    titleFound := false;
    var i := 0;
    while i < |patterns|
      invariant 0 <= i <= |patterns|
      invariant TitleStage(html, patterns) == TitleStage(html, patterns[i..])
      invariant !titleFound && nickname == DefaultNickname
    {
      var m := Capture(html, patterns[i]);
      TitleStageStep(html, patterns, i);
      if m.Some? && m.value != "" && Trim(m.value) != "" {
        nickname := Trim(m.value);
        titleFound := true;
        break;
      }
      i := i + 1;
    }
  }

  /** One turn of the title loop: the pattern at `i` decides, or the ones after it do. */
  lemma TitleStageStep(html: string, patterns: seq<Pattern>, i: nat)
    requires i < |patterns|
    ensures var c := Capture(html, patterns[i]);
      TitleStage(html, patterns[i..]) == if UsableTitle(c) then Some(Trim(c.value)) else TitleStage(html, patterns[i + 1..])
  {
    assert patterns[i..][0] == patterns[i] && patterns[i..][1..] == patterns[i + 1..];
  }

  /** The loop over the link texts. */
  method PickFromLinks(links: seq<string>, start: string) returns (nickname: string)
    ensures nickname == LinkStage(links, start)
  {
    nickname := start;
    var j := 0;
    while j < |links|
      invariant 0 <= j <= |links|
      invariant LinkStage(links, start) == LinkStage(links[j..], nickname)
    {
      var t := links[j];
      assert links[j..][0] == t && links[j..][1..] == links[j + 1..];
      if |t| > 1 {
        if HasParen(t) {
          var before := Trim(BeforeParen(t));
          if before != "" {
            nickname := before;
            break;
          }
        } else if nickname == DefaultNickname {
          nickname := Trim(t);
        }
      }
      j := j + 1;
    }
  }

  /** The `for` over the avatar patterns: the first non-empty match ends the loop. */
  method FindAvatar(html: string, patterns: seq<Pattern>) returns (avatar: string)
    ensures avatar == FirstFound(html, patterns).GetOr(DefaultAvatar)
  {
    avatar := DefaultAvatar;
    var a := 0;
    while a < |patterns|
      invariant 0 <= a <= |patterns|
      invariant FirstFound(html, patterns) == FirstFound(html, patterns[a..])
      invariant avatar == DefaultAvatar
    {
      var m := Capture(html, patterns[a]);
      FirstFoundStep(html, patterns, a);
      if m.Some? && m.value != "" {
        avatar := m.value;
        break;
      }
      a := a + 1;
    }
  }

  /** One turn of the avatar loop: the pattern at `a` decides, or the ones after it do. */
  lemma FirstFoundStep(html: string, patterns: seq<Pattern>, a: nat)
    requires a < |patterns|
    ensures var c := Capture(html, patterns[a]);
      FirstFound(html, patterns[a..]) == if c.Some? && c.value != "" then c else FirstFound(html, patterns[a + 1..])
  {
    assert patterns[a..][0] == patterns[a] && patterns[a..][1..] == patterns[a + 1..];
  }

  /** `extractBloggerInfo(html)`: the stages in the route's order, each run only when the ones before found nothing. */
  method ExtractBloggerInfo(html: string) returns (info: BloggerInfo)
    ensures info == BloggerOf(html)
    ensures info.nickname != ""
    ensures info.avatar == DefaultAvatar || StartsWith(info.avatar, AvatarHost)
  {
    ghost var title := TitleStage(html, TitlePatterns);
    var nickname, titleFound := FindTitle(html, TitlePatterns);

    ghost var direct := if title.Some? then None else DirectStage(html);
    if !titleFound {
      var m := Capture(html, DirectAt);
      if m.Some? && m.value != "" {
        nickname := Trim(m.value);
        titleFound := true;
      }
    }
    ghost var staged := if title.Some? then title.value else if direct.Some? then direct.value else DefaultNickname;
    assert titleFound == (title.Some? || direct.Some?) && nickname == staged;

    if !titleFound && nickname == DefaultNickname {
      nickname := PickFromLinks(LinkTexts(html, 0), nickname);
    }
    ghost var linked := if !titleFound && staged == DefaultNickname then LinkStage(LinkTexts(html, 0), staged) else staged;

    if nickname == DefaultNickname {
      var m := Capture(html, UncleAt);
      if m.Some? && m.value != "" {
        nickname := m.value;
      }
    }
    assert nickname == UncleStage(html, linked);
    NicknameOfStages(html, title, direct, linked);

    var avatar := FindAvatar(html, AvatarPatterns);
    AvatarOfSearch(html);
    info := BloggerInfo(nickname, avatar);
  }

  // ---------------------------------------------------------------------------
  // What the cascade promises

  /** Characters of the `Title:` capture and of link texts are never white space. */
  lemma WordsHaveNoSpace(t: string)
    requires forall i | 0 <= i < |t| :: IsWordChar(t[i]) || t[i] == '（' || t[i] == '）'
    ensures Trim(t) == t
  {
    forall i | 0 <= i < |t| ensures !IsSpace(t[i]) {
      NoSpaceInWordClass(t[i]);
    }
  }

  lemma NoSpaceInWordClass(c: char)
    requires IsWordChar(c) || c == '（' || c == '）'
    ensures !IsSpace(c)
  {
    if !IsCjk(c) && !IsAsciiAlnum(c) {
      assert ('!' <= c <= '~') || ('\U{3001}' <= c <= '\U{3011}') || ('\U{FF01}' <= c <= '\U{FF5E}');
    }
  }

  lemma NoSpaceInLinkClass(c: char)
    requires IsLinkTextChar(c)
    ensures !IsSpace(c)
  {
    if !IsCjk(c) && !IsAsciiAlnum(c) {
      assert ('!' <= c <= '~') || ('\U{3001}' <= c <= '\U{3011}') || ('\U{FF01}' <= c <= '\U{FF5E}');
    }
  }

  lemma LinkTextTrimmed(t: string)
    requires forall i | 0 <= i < |t| :: IsLinkTextChar(t[i])
    ensures Trim(t) == t
  {
    forall i | 0 <= i < |t| ensures !IsSpace(t[i]) {
      NoSpaceInLinkClass(t[i]);
    }
  }

  /** Starting from a non-empty nickname, the link stage ends on a non-empty one. */
  lemma {:induction false} LinkStageNonEmpty(texts: seq<string>, nickname: string)
    requires nickname != ""
    requires forall t | t in texts :: IsLinkText(t)
    ensures LinkStage(texts, nickname) != ""
  {
    if texts != [] {
      var t := texts[0];
      assert t in texts;
      if |t| > 1 && !HasParen(t) && nickname == DefaultNickname {
        LinkTextTrimmed(t);
      }
      assert forall u | u in texts[1..] :: u in texts;
      LinkStageNonEmpty(texts[1..], if |t| > 1 && !HasParen(t) && nickname == DefaultNickname then Trim(t) else nickname);
    }
  }

  lemma PrefixOfPrefix(s: string, p: string, q: string)
    requires StartsWith(s, p) && StartsWith(p, q)
    ensures StartsWith(s, q)
  {
    assert s[..|q|] == s[..|p|][..|q|];
  }

  /** What any of the avatar patterns captures lies on the avatar host. */
  lemma AvatarCaptureOnHost(html: string, i: nat)
    requires i < |AvatarPatterns|
    ensures var c := Capture(html, AvatarPatterns[i]); c.Some? ==> StartsWith(c.value, AvatarHost)
  {
    var c := Capture(html, AvatarPatterns[i]);
    if c.Some? {
      var k: nat :| LeftmostAt(html, AvatarPatterns[i], k) && AvatarPatterns[i](html, k) == c;
      if i == 0 {
        assert AvatarFileAt(html, k) == c;
        AvatarDirOnHost();
        PrefixOfPrefix(c.value, AvatarDir, AvatarHost);
      } else if i == 1 {
        assert AvatarIdAt(html, k) == c;
        AvatarDirOnHost();
        PrefixOfPrefix(c.value, AvatarDir, AvatarHost);
      } else {
        assert AvatarAnyAt(html, k) == c;
      }
    }
  }

  /** The nickname is the emergency stage applied to what the earlier stages left. */
  lemma NicknameOfStages(html: string, title: Option<string>, direct: Option<string>, linked: string)
    requires title == TitleStage(html, TitlePatterns)
    requires direct == if title.Some? then None else DirectStage(html)
    requires var staged := if title.Some? then title.value else if direct.Some? then direct.value else DefaultNickname;
      linked == if !(title.Some? || direct.Some?) && staged == DefaultNickname then LinkStage(LinkTexts(html, 0), staged) else staged
    ensures NicknameOf(html) == UncleStage(html, linked)
  {
  }

  /** The avatar is what the search finds, or the default picture. */
  lemma AvatarOfSearch(html: string)
    ensures AvatarOf(html) == FirstFound(html, AvatarPatterns).GetOr(DefaultAvatar)
  {
  }

  /** What the avatar search finds lies on the avatar host, so it is not the default picture. */
  lemma FoundAvatarOnHost(html: string, v: string)
    requires FirstFound(html, AvatarPatterns) == Some(v)
    ensures StartsWith(v, AvatarHost) && v != DefaultAvatar
  {
    var i: nat :| FirstNonEmpty(html, AvatarPatterns, i) && Capture(html, AvatarPatterns[i]) == Some(v);
    AvatarCaptureOnHost(html, i);
    assert v[0] == v[..|AvatarHost|][0] == AvatarHost[0];
  }

  /** A usable title wins, and none of the later stages runs unless it equals the default nickname. */
  lemma TitleWins(html: string)
    requires TitleStage(html, TitlePatterns).Some?
    requires TitleStage(html, TitlePatterns).value != DefaultNickname
    ensures NicknameOf(html) == TitleStage(html, TitlePatterns).value
  {
  }

  /** The first candidate with a parenthesis and a non-blank part before it. */
  function ParenPick(texts: seq<string>): Option<string> {
    if texts == [] then None
    else
      var t := texts[0];
      if |t| > 1 && HasParen(t) && Trim(BeforeParen(t)) != "" then Some(Trim(BeforeParen(t)))
      else ParenPick(texts[1..])
  }

  /** The first candidate without a parenthesis whose trimmed text is not the default nickname. */
  function PlainPick(texts: seq<string>): Option<string> {
    if texts == [] then None
    else
      var t := texts[0];
      if |t| > 1 && !HasParen(t) && Trim(t) != DefaultNickname then Some(Trim(t))
      else PlainPick(texts[1..])
  }

  /** Once the nickname is no longer the default, only a parenthesised text can replace it. */
  lemma {:induction false} LinkStageAfterPlain(texts: seq<string>, nickname: string)
    requires nickname != DefaultNickname
    ensures LinkStage(texts, nickname) == ParenPick(texts).GetOr(nickname)
  {
    if texts != [] {
      LinkStageAfterPlain(texts[1..], nickname);
    }
  }

  /**
   * The link stage: a parenthesised text overrides any plain one seen before
   * it and keeps only the part before the parenthesis; otherwise the first
   * plain text that is not the default is taken; otherwise the default stays.
   */
  lemma {:induction false} LinkStageChoice(texts: seq<string>)
    ensures LinkStage(texts, DefaultNickname) == ParenPick(texts).GetOr(PlainPick(texts).GetOr(DefaultNickname))
  {
    if texts != [] {
      var t := texts[0];
      if |t| > 1 && HasParen(t) && Trim(BeforeParen(t)) != "" {
      } else if |t| > 1 && !HasParen(t) && Trim(t) != DefaultNickname {
        LinkStageAfterPlain(texts[1..], Trim(t));
      } else {
        LinkStageChoice(texts[1..]);
      }
    }
  }

  /** With no usable title, no direct match, no usable link text and no emergency match, the default stays. */
  lemma DefaultUnlessMatched(html: string)
    requires TitleStage(html, TitlePatterns).None?
    requires DirectStage(html).None?
    requires ParenPick(LinkTexts(html, 0)).None? && PlainPick(LinkTexts(html, 0)).None?
    requires Capture(html, UncleAt).None?
    ensures NicknameOf(html) == DefaultNickname
  {
    LinkStageChoice(LinkTexts(html, 0));
  }

  // ---------------------------------------------------------------------------
  // Pages on which a stage finds something

  /** A pattern that matches at `m` and nowhere before yields its capture there. */
  lemma CaptureIs(html: string, pattern: Pattern, m: nat, v: string)
    requires m <= |html| && pattern(html, m) == Some(v)
    requires forall j | 0 <= j < m :: pattern(html, j).None?
    ensures Capture(html, pattern) == Some(v)
  {
    assert pattern(html, m).Some?;
    var c := Capture(html, pattern);
    var k: nat :| LeftmostAt(html, pattern, k) && pattern(html, k) == c;
    assert LeftmostAt(html, pattern, k);
    assert k <= |html|;
    assert pattern(html, k).Some?;
    assert m <= k;
    assert k <= m;
  }

  /**
   * A page whose first `<title>` holds a title `t` closed by `</title>`, where
   * `t` has no `<`, no `-` and no line break, is given the trimmed title as
   * nickname (unless that is the default nickname itself).
   */
  lemma TitleTagNickname(pre: string, t: string, post: string)
    requires Find(pre + "<title>", "<title>", 0) == Some(|pre|)
    requires forall k | 0 <= k < |t| :: t[k] != '<' && t[k] != '-' && !IsLineTerminator(t[k])
    requires Trim(t) != "" && Trim(t) != DefaultNickname
    ensures NicknameOf(pre + "<title>" + t + "</title>" + post) == Trim(t)
  {
    var html := pre + "<title>" + t + "</title>" + post;
    TitleTagCaptured(pre, t, post);
    assert UsableTitle(Capture(html, TitlePatterns[0]));
    assert TitleStage(html, TitlePatterns) == Some(Trim(t));
    TitleWins(html);
  }

  /** The title tag's leftmost match on such a page captures `t`. */
  lemma TitleTagCaptured(pre: string, t: string, post: string)
    requires Find(pre + "<title>", "<title>", 0) == Some(|pre|)
    requires forall k | 0 <= k < |t| :: t[k] != '<' && t[k] != '-' && !IsLineTerminator(t[k])
    ensures Capture(pre + "<title>" + t + "</title>" + post, TitleTagAt) == Some(t)
  {
    var html := pre + "<title>" + t + "</title>" + post;
    TitleTagPlaced(pre, t, post);
    TitleTagAtIs(html, |pre|, t);
    forall k | 0 <= k < |pre| ensures TitleTagAt(html, k).None? {
      TitleTagAbsent(pre, t, post, k);
    }
    CaptureIs(html, TitleTagAt, |pre|, t);
  }

  /** On such a page `<title>`, the title and `</title>` follow each other from `|pre|` on. */
  lemma TitleTagPlaced(pre: string, t: string, post: string)
    ensures var html := pre + "<title>" + t + "</title>" + post;
      OccursAt(html, "<title>", |pre|) && OccursAt(html, t, |pre| + 7) && OccursAt(html, "</title>", |pre| + 7 + |t|)
  {
    var open := pre + "<title>";
    var title := open + t;
    var closed := title + "</title>";
    OccursAtEnd(pre, "<title>");
    OccursExtend(open, t, "<title>", |pre|);
    OccursExtend(title, "</title>", "<title>", |pre|);
    OccursExtend(closed, post, "<title>", |pre|);
    OccursAtEnd(open, t);
    OccursExtend(title, "</title>", t, |open|);
    OccursExtend(closed, post, t, |open|);
    OccursAtEnd(title, "</title>");
    OccursExtend(closed, post, "</title>", |title|);
  }

  /** Before `|pre|` no `<title>` starts. */
  lemma TitleTagAbsent(pre: string, t: string, post: string, k: nat)
    requires Find(pre + "<title>", "<title>", 0) == Some(|pre|)
    requires k < |pre|
    ensures !OccursAt(pre + "<title>" + t + "</title>" + post, "<title>", k)
  {
    var open := pre + "<title>";
    var title := open + t;
    var closed := title + "</title>";
    assert !OccursAt(open, "<title>", k);
    OccursExtend(open, t, "<title>", k);
    OccursExtend(title, "</title>", "<title>", k);
    OccursExtend(closed, post, "<title>", k);
  }

  /** `<title>`, then a title without `<`, `-` or line break, then `</title>`: the title tag matches with that capture. */
  lemma TitleTagAtIs(html: string, k: nat, t: string)
    requires OccursAt(html, "<title>", k) && OccursAt(html, t, k + 7) && OccursAt(html, "</title>", k + 7 + |t|)
    requires forall i | 0 <= i < |t| :: t[i] != '<' && t[i] != '-' && !IsLineTerminator(t[i])
    ensures TitleTagAt(html, k) == Some(t)
  {
    var b := k + 7;
    var e := b + |t|;
    assert html[e] == "</title>"[0];
    forall i | b <= i < e ensures !EndsAt(TitleEnd, html, i) && !IsLineTerminator(html[i]) {
      assert html[i] == t[i - b];
      NoTitleEndIn(html, i, e);
    }
    LazyUntilIs(html, b, TitleEnd, e);
  }

  /** Before a `<` at `e`, an index of the title whose characters are neither `<` nor `-` ends no title. */
  lemma NoTitleEndIn(html: string, k: nat, e: nat)
    requires k < e < |html| && html[e] == '<'
    requires forall i | k <= i < e :: html[i] != '<' && html[i] != '-'
    ensures !EndsAt(TitleEnd, html, k)
  {
    var dash := k + RunFrom(html, k, IsSpace);
    assert !IsSpace(html[e]);
    assert dash <= e;
  }

  /**
   * A page whose first avatar directory address is followed by an
   * alphanumeric id, a dot and a lower-case extension that ends there gets
   * that address as avatar: the first avatar pattern wins.
   */
  lemma AvatarFileFound(pre: string, id: string, ext: string, post: string)
    requires FilePage(pre, AvatarDir, id, ext, post)
    ensures AvatarOf(pre + (AvatarDir + id + "." + ext) + post) == AvatarDir + id + "." + ext
  {
    AvatarFileIsFileAt();
    FileFound(pre, AvatarDir, id, ext, post, AvatarPatterns);
    AvatarFromSearch(pre + (AvatarDir + id + "." + ext) + post, AvatarDir + id + "." + ext);
  }

  /**
   * `pre + (dir + id + "." + ext) + post` with no `dir` starting inside
   * `pre`, an alphanumeric id, a lower-case extension and nothing
   * lower-case right after it.
   */
  predicate FilePage(pre: string, dir: string, id: string, ext: string, post: string) {
    && Find(pre + dir, dir, 0) == Some(|pre|)
    && id != [] && (forall k | 0 <= k < |id| :: IsAsciiAlnum(id[k]))
    && ext != [] && (forall k | 0 <= k < |ext| :: IsLower(ext[k]))
    && (post == [] || !IsLower(post[0]))
  }

  /** What the search finds is the avatar. */
  lemma AvatarFromSearch(html: string, v: string)
    requires FirstFound(html, AvatarPatterns) == Some(v)
    ensures AvatarOf(html) == v
  {
  }

  lemma AvatarFileIsFileAt()
    ensures forall s: string, k: nat :: AvatarPatterns[0](s, k) == FileAt(s, k, AvatarDir)
  {
  }

  /** When the first of `patterns` is shaped like `FileAt` below `dir`, such a page's address is what the search finds. */
  lemma FileFound(pre: string, dir: string, id: string, ext: string, post: string, patterns: seq<Pattern>)
    requires patterns != [] && forall s: string, k: nat :: patterns[0](s, k) == FileAt(s, k, dir)
    requires Find(pre + dir, dir, 0) == Some(|pre|)
    requires id != [] && forall k | 0 <= k < |id| :: IsAsciiAlnum(id[k])
    requires ext != [] && forall k | 0 <= k < |ext| :: IsLower(ext[k])
    requires post == [] || !IsLower(post[0])
    ensures FirstFound(pre + (dir + id + "." + ext) + post, patterns) == Some(dir + id + "." + ext)
  {
    FileCaptured(pre, dir, id, ext, post, patterns[0]);
    FirstFoundHead(pre + (dir + id + "." + ext) + post, patterns, dir + id + "." + ext);
  }

  /** A non-empty match of the first pattern is what the search finds. */
  lemma FirstFoundHead(html: string, patterns: seq<Pattern>, v: string)
    requires patterns != [] && Capture(html, patterns[0]) == Some(v) && v != ""
    ensures FirstFound(html, patterns) == Some(v)
  {
  }

  /**
   * The leftmost match of a pattern shaped like `FileAt` below `dir`, on a
   * page whose first `dir` is followed by an id, a dot and an extension
   * that ends there, is that address.
   */
  lemma FileCaptured(pre: string, dir: string, id: string, ext: string, post: string, pattern: Pattern)
    requires forall s: string, k: nat :: pattern(s, k) == FileAt(s, k, dir)
    requires Find(pre + dir, dir, 0) == Some(|pre|)
    requires id != [] && forall k | 0 <= k < |id| :: IsAsciiAlnum(id[k])
    requires ext != [] && forall k | 0 <= k < |ext| :: IsLower(ext[k])
    requires post == [] || !IsLower(post[0])
    ensures Capture(pre + (dir + id + "." + ext) + post, pattern) == Some(dir + id + "." + ext)
  {
    var url := dir + id + "." + ext;
    var html := pre + url + post;
    forall k | 0 <= k < |pre| ensures pattern(html, k).None? {
      FileAbsent(pre, dir, id, ext, post, k);
    }
    Placed(pre, url, post);
    FileAtIs(html, |pre|, dir, id, ext);
    CaptureIs(html, pattern, |pre|, url);
  }

  /** `u` sits at `|pre|` in `pre + u + post`, followed by `post`. */
  lemma Placed(pre: string, u: string, post: string)
    ensures OccursAt(pre + u + post, u, |pre|)
    ensures post != [] ==> (pre + u + post)[|pre| + |u|] == post[0]
  {
    OccursAtEnd(pre, u);
    OccursExtend(pre + u, post, u, |pre|);
  }

  /** When `dir` first occurs in `pre + dir` at `|pre|`, it does not start before `|pre|` in a page with `dir + id + "." + ext` there. */
  lemma FileAbsent(pre: string, dir: string, id: string, ext: string, post: string, k: nat)
    requires Find(pre + dir, dir, 0) == Some(|pre|)
    requires k < |pre|
    ensures !OccursAt(pre + (dir + id + "." + ext) + post, dir, k)
  {
    assert !OccursAt(pre + dir, dir, k);
    assert dir + (id + "." + ext) == dir + id + "." + ext;
    OccursRegroup(pre, dir, id + "." + ext, dir, k);
    OccursExtend(pre + (dir + id + "." + ext), post, dir, k);
  }

  /** `dir`, an alphanumeric id, a dot and a lower-case extension that ends there: `FileAt` matches all of it. */
  lemma FileAtIs(html: string, k: nat, dir: string, id: string, ext: string)
    requires OccursAt(html, dir + id + "." + ext, k)
    requires id != [] && forall i | 0 <= i < |id| :: IsAsciiAlnum(id[i])
    requires ext != [] && forall i | 0 <= i < |ext| :: IsLower(ext[i])
    requires k + |dir + id + "." + ext| < |html| ==> !IsLower(html[k + |dir + id + "." + ext|])
    ensures FileAt(html, k, dir) == Some(dir + id + "." + ext)
  {
    FileRuns(html, k, dir, id, ext);
  }

  /** The pieces of `dir + id + "." + ext` at `k`: the directory, the id run, the dot and the extension run. */
  lemma FileRuns(html: string, k: nat, dir: string, id: string, ext: string)
    requires OccursAt(html, dir + id + "." + ext, k)
    requires id != [] && forall i | 0 <= i < |id| :: IsAsciiAlnum(id[i])
    requires ext != [] && forall i | 0 <= i < |ext| :: IsLower(ext[i])
    requires k + |dir + id + "." + ext| < |html| ==> !IsLower(html[k + |dir + id + "." + ext|])
    ensures OccursAt(html, dir, k)
    ensures RunFrom(html, k + |dir|, IsAsciiAlnum) == |id|
    ensures html[k + |dir| + |id|] == '.'
    ensures RunFrom(html, k + |dir| + |id| + 1, IsLower) == |ext|
  {
    var d := k + |dir| + |id|;
    OccursSplit(html, dir + id + ".", ext, k);
    OccursSplit(html, dir + id, ".", k);
    OccursSplit(html, dir, id, k);
    assert html[d] == html[d..d + 1][0];
    RunOver(html, k + |dir|, id, IsAsciiAlnum);
    RunOver(html, d + 1, ext, IsLower);
  }

  /** A run of `p` that covers all of `w` where it occurs and stops right after it has the length of `w`. */
  lemma RunOver(html: string, b: nat, w: string, p: char -> bool)
    requires OccursAt(html, w, b)
    requires forall i | 0 <= i < |w| :: p(w[i])
    requires b + |w| < |html| ==> !p(html[b + |w|])
    ensures RunFrom(html, b, p) == |w|
  {
    forall i | b <= i < b + |w| ensures p(html[i]) {
      assert html[i] == html[b..b + |w|][i - b];
    }
    RunFromIs(html, b, |w|, p);
  }

}
