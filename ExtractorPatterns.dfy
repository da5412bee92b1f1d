/**
 * The regular expressions of `extractBloggerInfo`, each written as a matcher
 * that tries the pattern at one index of the page, with the same choices the
 * JavaScript backtracking engine makes there (greedy runs give back
 * characters, lazy runs take more only when the rest fails, alternatives are
 * tried left to right). `FirstMatch` turns such a matcher into
 * `html.match(pattern)`: the match at the leftmost index where there is one.
 */
module ExtractorPatterns {
  import opened Wrappers
  import opened Text

  // ---------------------------------------------------------------------------
  // Search and character runs

  /** The leftmost index at or after `from` where `at` matches, with what it matched. */
  function FirstMatch<T>(s: string, at: (string, nat) -> Option<T>, from: nat): (r: Option<(nat, T)>)
    ensures r.Some? ==> from <= r.value.0 <= |s| && at(s, r.value.0) == Some(r.value.1)
    ensures r.Some? ==> forall k | from <= k < r.value.0 :: at(s, k).None?
    ensures r.None? ==> forall k | from <= k <= |s| :: at(s, k).None?
    decreases |s| - from
  {
    if from > |s| then None
    else match at(s, from)
      case Some(v) => Some((from, v))
      case None => FirstMatch(s, at, from + 1)
  }

  /** The length of the greedy run of characters satisfying `p` from index `i`. */
  function RunFrom(s: string, i: nat, p: char -> bool): (n: nat)
    ensures i <= |s| ==> i + n <= |s|
    ensures i >= |s| ==> n == 0
    ensures forall k | i <= k < i + n :: p(s[k])
    ensures i + n < |s| ==> !p(s[i + n])
    decreases |s| - i
  {
    if i < |s| && p(s[i]) then 1 + RunFrom(s, i + 1, p) else 0
  }

  /** A run of `n` characters satisfying `p`, not followed by another, is the greedy run. */
  lemma RunFromIs(s: string, i: nat, n: nat, p: char -> bool)
    requires i + n <= |s|
    requires forall k | i <= k < i + n :: p(s[k])
    requires i + n < |s| ==> !p(s[i + n])
    ensures RunFrom(s, i, p) == n
  {
  }

  // ---------------------------------------------------------------------------
  // The title patterns

  /** `\s*-\s*小红书` at index `i`. */
  predicate DashSiteAt(s: string, i: nat) {
    var dash := i + RunFrom(s, i, IsSpace);
    dash < |s| && s[dash] == '-' && OccursAt(s, "小红书", dash + 1 + RunFrom(s, dash + 1, IsSpace))
  }

  /** `(?:\s*-\s*小红书|<\/title>)` at index `i`. */
  predicate TitleEndAt(s: string, i: nat) {
    DashSiteAt(s, i) || OccursAt(s, "</title>", i)
  }

  predicate CloseH1At(s: string, i: nat) {
    OccursAt(s, "</h1>", i)
  }

  predicate CloseDivAt(s: string, i: nat) {
    OccursAt(s, "</div>", i)
  }

  /** What ends a lazy `(.*?)` capture in the three title patterns. */
  datatype Terminator = TitleEnd | CloseH1 | CloseDiv

  predicate EndsAt(t: Terminator, s: string, i: nat) {
    match t
    case TitleEnd => TitleEndAt(s, i)
    case CloseH1 => CloseH1At(s, i)
    case CloseDiv => CloseDivAt(s, i)
  }

  /**
   * The lazy `(.*?)` from index `i` followed by a terminator: the first index
   * at or after `i` where the terminator matches, as long as no line
   * terminator comes before it.
   */
  function LazyUntil(s: string, i: nat, t: Terminator): (r: Option<nat>)
    requires i <= |s|
    ensures r.Some? ==> i <= r.value <= |s| && EndsAt(t, s, r.value)
    ensures r.Some? ==> forall k | i <= k < r.value :: !EndsAt(t, s, k) && !IsLineTerminator(s[k])
    ensures r.None? ==> forall e | i <= e <= |s| && EndsAt(t, s, e) :: exists k | i <= k < e :: IsLineTerminator(s[k])
    decreases |s| - i
  {
    if EndsAt(t, s, i) then Some(i)
    else if i >= |s| || IsLineTerminator(s[i]) then None
    else LazyUntil(s, i + 1, t)
  }

  /** The lazy `(.*?)` stops at the first index where the terminator matches, if no line terminator comes first. */
  lemma LazyUntilIs(s: string, i: nat, t: Terminator, e: nat)
    requires i <= e <= |s| && EndsAt(t, s, e)
    requires forall k | i <= k < e :: !EndsAt(t, s, k) && !IsLineTerminator(s[k])
    ensures LazyUntil(s, i, t) == Some(e)
  {
  }

  /** The text the lazy `(.*?)` captures from `i` up to the terminator. */
  function LazyCapture(s: string, i: nat, t: Terminator): (r: Option<string>)
    requires i <= |s|
    ensures r.Some? ==> OccursAt(s, r.value, i) && EndsAt(t, s, i + |r.value|)
    ensures r.Some? ==> forall k | 0 <= k < |r.value| :: !IsLineTerminator(r.value[k])
  {
    match LazyUntil(s, i, t)
    case Some(e) => Some(s[i..e])
    case None => None
  }

  /** `<title>(.*?)(?:\s*-\s*小红书|<\/title>)` at index `k`: the captured title. */
  function TitleTagAt(s: string, k: nat): (r: Option<string>)
    ensures r.Some? ==> OccursAt(s, "<title>", k)
    ensures r.Some? ==> OccursAt(s, r.value, k + 7) && EndsAt(TitleEnd, s, k + 7 + |r.value|)
  {
    if OccursAt(s, "<title>", k) then
      LazyCapture(s, k + 7, TitleEnd)
    else None
  }

  /** `<h1[^>]*>(.*?)<\/h1>` at index `k`: the tag runs to the first `>`, the capture to the first `</h1>`. */
  function H1At(s: string, k: nat): (r: Option<string>)
    ensures r.Some? ==> OccursAt(s, "<h1", k)
    ensures r.Some? ==> exists g | k + 3 <= g < |s| :: s[g] == '>' && OccursAt(s, r.value, g + 1) && EndsAt(CloseH1, s, g + 1 + |r.value|)
  {
    if OccursAt(s, "<h1", k) then
      match IndexOf(s, '>', k + 3)
      case Some(g) => LazyCapture(s, g + 1, CloseH1)
      case None => None
    else None
  }

  /**
   * `class="[^"]*title[^"]*"[^>]*>(.*?)<\/div>` at index `j`: the attribute
   * value runs to the next `"` and must contain `title`, the tag then runs to
   * the next `>`, and the capture to the first `</div>`.
   */
  /** The `>` ending the tag at `g`, then the capture `c`, then `</div>`. */
  predicate DivTagThen(s: string, g: nat, c: string) {
    g < |s| && s[g] == '>' && OccursAt(s, c, g + 1) && EndsAt(CloseDiv, s, g + 1 + |c|)
  }

  function ClassTitleAt(s: string, j: nat): (r: Option<string>)
    ensures r.Some? ==> OccursAt(s, "class=\"", j)
    ensures r.Some? ==> exists g | j + 7 <= g < |s| :: DivTagThen(s, g, r.value)
  {
    if OccursAt(s, "class=\"", j) then TitleClassValue(s, j + 7) else None
  }

  /** `[^"]*title[^"]*"` from index `v`, then the rest of the tag and the capture. */
  function TitleClassValue(s: string, v: nat): (r: Option<string>)
    ensures r.Some? ==> exists g | v <= g < |s| :: DivTagThen(s, g, r.value)
  {
    match IndexOf(s, '"', v)
    case None => None
    case Some(q) => if Contains(s[v..q], "title") then DivContent(s, q + 1) else None
  }

  /** `[^>]*>(.*?)<\/div>` from index `t`: the tag runs to the next `>`, the capture to the first `</div>`. */
  function DivContent(s: string, t: nat): (r: Option<string>)
    ensures r.Some? ==> exists g | t <= g < |s| :: DivTagThen(s, g, r.value)
  {
    match IndexOf(s, '>', t)
    case Some(g) =>
      var r := LazyCapture(s, g + 1, CloseDiv);
      assert r.Some? ==> DivTagThen(s, g, r.value);
      r
    case None => None
  }

  /**
   * The greedy `[^>]*` between `<div` and `class="`: the attribute is tried
   * at the last possible index `j` first, then at earlier ones down to `lo`.
   */
  function DivAttrFrom(s: string, lo: nat, j: nat): (r: Option<string>)
    requires lo <= j
    ensures r.Some? ==> exists i | lo <= i <= j :: ClassTitleAt(s, i) == r && NoMatchAfter(ClassTitleAt, s, i, j)
    ensures r.None? ==> forall i | lo <= i <= j :: ClassTitleAt(s, i).None?
  {
    LastMatchFrom(ClassTitleAt, s, lo, j)
  }

  /** The match of `at` at the last index from `j` down to `lo` that has one. */
  function LastMatchFrom(at: (string, nat) -> Option<string>, s: string, lo: nat, j: nat): (r: Option<string>)
    requires lo <= j
    ensures r.Some? ==> exists i | lo <= i <= j :: at(s, i) == r && NoMatchAfter(at, s, i, j)
    ensures r.None? ==> forall i | lo <= i <= j :: at(s, i).None?
    decreases j - lo
  {
    match at(s, j)
    case Some(c) =>
      assert NoMatchAfter(at, s, j, j);
      Some(c)
    case None =>
      if j == lo then None
      else
        var rest := LastMatchFrom(at, s, lo, j - 1);
        if rest.None? then rest
        else
          var i :| lo <= i <= j - 1 && at(s, i) == rest && NoMatchAfter(at, s, i, j - 1);
          NoMatchAfterExtend(at, s, i, j);
          rest
  }

  /** No index after `i` up to `j` starts a match of `at`. */
  predicate NoMatchAfter(at: (string, nat) -> Option<string>, s: string, i: nat, j: nat) {
    forall m | i < m <= j :: at(s, m).None?
  }

  /** A miss at `j` extends "no match after `i`" from `j - 1` to `j`. */
  lemma NoMatchAfterExtend(at: (string, nat) -> Option<string>, s: string, i: nat, j: nat)
    requires i < j && NoMatchAfter(at, s, i, j - 1) && at(s, j).None?
    ensures NoMatchAfter(at, s, i, j)
  {
  }

  /** `<div[^>]*class="[^"]*title[^"]*"[^>]*>(.*?)<\/div>` at index `k`. */
  function DivAt(s: string, k: nat): (r: Option<string>)
    ensures r.Some? ==> OccursAt(s, "<div", k)
    ensures r.Some? ==> exists i | k + 4 <= i <= |s| :: ClassTitleAt(s, i) == r && forall m | k + 4 <= m < i :: s[m] != '>'
  {
    if OccursAt(s, "<div", k) then
      var g := match IndexOf(s, '>', k + 4) case Some(g) => g case None => |s|;
      DivAttrFrom(s, k + 4, g)
    else None
  }

  // ---------------------------------------------------------------------------
  // The direct pattern

  /** `[一-龥a-zA-Z0-9]`. */
  predicate IsWordChar(c: char) {
    IsCjk(c) || IsAsciiAlnum(c)
  }

  /** The length of the optional `(?:（[一-龥a-zA-Z0-9]+）)?` at index `e`. */
  function ParenSuffix(s: string, e: nat): (n: nat)
    ensures n == 0 || (e + n <= |s| && n >= 3 && s[e] == '（' && s[e + n - 1] == '）')
    ensures forall k | e < k < e + n - 1 :: IsWordChar(s[k])
  {
    if e < |s| && s[e] == '（' then
      var w := RunFrom(s, e + 1, IsWordChar);
      if w > 0 && e + 1 + w < |s| && s[e + 1 + w] == '）' then w + 2 else 0
    else 0
  }

  /** `Title:\s*([一-龥a-zA-Z0-9]+(?:（[一-龥a-zA-Z0-9]+）)?)` at index `k`. */
  function DirectAt(s: string, k: nat): (r: Option<string>)
    ensures r.Some? ==> OccursAt(s, "Title:", k)
    ensures r.Some? ==> r.value != [] && IsWordChar(r.value[0])
    ensures r.Some? ==> forall i | 0 <= i < |r.value| :: IsWordChar(r.value[i]) || r.value[i] == '（' || r.value[i] == '）'
  {
    if OccursAt(s, "Title:", k) then
      var p := k + 6 + RunFrom(s, k + 6, IsSpace);
      var w := RunFrom(s, p, IsWordChar);
      if w == 0 then None
      else
        var e := p + w;
        var n := ParenSuffix(s, e);
        assert forall i | p <= i < e + n :: IsWordChar(s[i]) || s[i] == '（' || s[i] == '）' by {
          forall i | p <= i < e + n ensures IsWordChar(s[i]) || s[i] == '（' || s[i] == '）' {
            if i < e {
            } else if i == e || i == e + n - 1 {
            } else {
            }
          }
        }
        Some(s[p..e + n])
    else None
  }

  // ---------------------------------------------------------------------------
  // The link-text pattern

  /** The class `[一-龥a-zA-Z0-9（）\(\)（）［］\[\]【】\{\}「」""''！!？\?～~、。，,]`. */
  predicate IsLinkTextChar(c: char) {
    IsCjk(c) || IsAsciiAlnum(c) || c in "（）()［］[]【】{}「」\"'！!？?～~、。，,"
  }

  /** A non-empty run of the link-text class. */
  predicate IsLinkText(t: string) {
    t != [] && forall i | 0 <= i < |t| :: IsLinkTextChar(t[i])
  }

  /**
   * `>([…]+?)(?:<\/a>|<\/span>)` at index `k`: the capture and the index just
   * past the match.
   */
  function LinkTextAt(s: string, k: nat): (r: Option<(string, nat)>)
    ensures r.Some? ==> k < |s| && s[k] == '>' && k + 1 + |r.value.0| < r.value.1 <= |s|
    ensures r.Some? ==> IsLinkText(r.value.0) && OccursAt(s, r.value.0, k + 1)
    ensures r.Some? ==> OccursAt(s, "</a>", k + 1 + |r.value.0|) || OccursAt(s, "</span>", k + 1 + |r.value.0|)
  {
    if k < |s| && s[k] == '>' then LinkCaptureAt(s, k + 1) else None
  }

  /**
   * `([…]+?)(?:<\/a>|<\/span>)` at index `i`. The terminators start with
   * `<`, which is not in the class, so the lazy run ends exactly where the
   * class run ends.
   */
  function LinkCaptureAt(s: string, i: nat): (r: Option<(string, nat)>)
    ensures r.Some? ==> i + |r.value.0| < r.value.1 <= |s|
    ensures r.Some? ==> IsLinkText(r.value.0) && OccursAt(s, r.value.0, i)
    ensures r.Some? ==> OccursAt(s, "</a>", i + |r.value.0|) || OccursAt(s, "</span>", i + |r.value.0|)
  {
    var m := RunFrom(s, i, IsLinkTextChar);
    var e := i + m;
    if m == 0 then None
    else
      LinkRun(s, i, m);
      if OccursAt(s, "</a>", e) then Some((s[i..e], e + 4))
      else if OccursAt(s, "</span>", e) then Some((s[i..e], e + 7))
      else None
  }

  /** A non-empty stretch of class characters is a link text. */
  lemma LinkRun(s: string, i: nat, m: nat)
    requires 0 < m && i + m <= |s|
    requires forall k | i <= k < i + m :: IsLinkTextChar(s[k])
    ensures IsLinkText(s[i..i + m])
  {
    var t := s[i..i + m];
    forall j | 0 <= j < m ensures IsLinkTextChar(t[j]) {
      assert t[j] == s[i + j];
    }
  }

  /** `Array.from(html.matchAll(pattern))`, captures only: each search resumes after the previous match. */
  function LinkTexts(s: string, from: nat): (r: seq<string>)
    ensures forall t | t in r :: IsLinkText(t)
    decreases |s| - from
  {
    if from >= |s| then []
    else match LinkTextAt(s, from)
      case Some((t, e)) => [t] + LinkTexts(s, e)
      case None => LinkTexts(s, from + 1)
  }

  // ---------------------------------------------------------------------------
  // The emergency pattern

  /** `[一-龥]{n}叔` at index `k`, with `n` given back one at a time down to 2. */
  function UncleFrom(s: string, k: nat, n: nat): (r: Option<string>)
    requires n <= RunFrom(s, k, IsCjk)
    ensures r.Some? ==> 3 <= |r.value| <= n + 1 && OccursAt(s, r.value, k) && r.value[|r.value| - 1] == '叔'
    decreases n
  {
    if n < 2 then None
    else if k + n < |s| && s[k + n] == '叔' then Some(s[k..k + n + 1])
    else UncleFrom(s, k, n - 1)
  }

  /** `(花叔|[一-龥]{2,4}叔)` at index `k`. */
  function UncleAt(s: string, k: nat): (r: Option<string>)
    ensures r.Some? ==> 2 <= |r.value| <= 5 && OccursAt(s, r.value, k) && r.value[|r.value| - 1] == '叔'
  {
    if OccursAt(s, "花叔", k) then Some("花叔")
    else
      var run := RunFrom(s, k, IsCjk);
      UncleFrom(s, k, if run < 4 then run else 4)
  }

  // ---------------------------------------------------------------------------
  // The avatar patterns

  /** What the last avatar pattern requires every match to start with. */
  const AvatarHost: string := "https://sns-avatar"
  const AvatarDir: string := "https://sns-avatar-qc.xhscdn.com/avatar/"

  predicate IsLower(c: char) {
    'a' <= c <= 'z'
  }

  predicate NotQuote(c: char) {
    c != '"' && c != '\''
  }

  lemma AvatarDirOnHost()
    ensures StartsWith(AvatarDir, AvatarHost)
  {
    assert AvatarDir[..|AvatarHost|] == AvatarHost;
  }

  /** `https:\/\/sns-avatar-qc\.xhscdn\.com\/avatar\/[a-zA-Z0-9]+\.[a-z]+` at index `k`. */
  function AvatarFileAt(s: string, k: nat): (r: Option<string>)
    ensures r.Some? ==> OccursAt(s, r.value, k) && StartsWith(r.value, AvatarDir)
    ensures r.Some? ==> |r.value| >= |AvatarDir| + 3 && IsLower(r.value[|r.value| - 1])
  {
    FileAt(s, k, AvatarDir)
  }

  /** The shape of the first avatar pattern below a directory `dir`: `dir[a-zA-Z0-9]+\.[a-z]+` at index `k`. */
  function FileAt(s: string, k: nat, dir: string): (r: Option<string>)
    ensures r.Some? ==> OccursAt(s, r.value, k) && StartsWith(r.value, dir)
    ensures r.Some? ==> |r.value| >= |dir| + 3 && IsLower(r.value[|r.value| - 1])
  {
    if OccursAt(s, dir, k) then
      var a := RunFrom(s, k + |dir|, IsAsciiAlnum);
      var d := k + |dir| + a;
      if a > 0 && d < |s| && s[d] == '.' then
        var l := RunFrom(s, d + 1, IsLower);
        if l > 0 then
          assert s[k..d + 1 + l][..|dir|] == s[k..k + |dir|];
          Some(s[k..d + 1 + l])
        else None
      else None
    else None
  }

  /** `https:\/\/sns-avatar-qc\.xhscdn\.com\/avatar\/[a-zA-Z0-9]+` at index `k`. */
  function AvatarIdAt(s: string, k: nat): (r: Option<string>)
    ensures r.Some? ==> OccursAt(s, r.value, k) && StartsWith(r.value, AvatarDir)
    ensures r.Some? ==> |r.value| > |AvatarDir| && IsAsciiAlnum(r.value[|r.value| - 1])
  {
    if OccursAt(s, AvatarDir, k) then
      var a := RunFrom(s, k + |AvatarDir|, IsAsciiAlnum);
      if a > 0 then
        assert s[k..k + |AvatarDir| + a][..|AvatarDir|] == s[k..k + |AvatarDir|];
        Some(s[k..k + |AvatarDir| + a])
      else None
    else None
  }

  /** `https:\/\/sns-avatar[^"']+` at index `k`. */
  function AvatarAnyAt(s: string, k: nat): (r: Option<string>)
    ensures r.Some? ==> OccursAt(s, r.value, k) && StartsWith(r.value, AvatarHost)
    ensures r.Some? ==> |r.value| > |AvatarHost| && forall i | 0 <= i < |r.value| :: NotQuote(r.value[i])
  {
    if OccursAt(s, AvatarHost, k) then
      var n := RunFrom(s, k + |AvatarHost|, NotQuote);
      if n > 0 then
        var r := s[k..k + |AvatarHost| + n];
        assert r[..|AvatarHost|] == s[k..k + |AvatarHost|];
        assert forall i | 0 <= i < |AvatarHost| :: NotQuote(AvatarHost[i]);
        assert forall i | 0 <= i < |r| :: NotQuote(r[i]) by {
          forall i | 0 <= i < |r| ensures NotQuote(r[i]) {
            if i < |AvatarHost| {
              assert r[i] == AvatarHost[i];
            } else {
              assert r[i] == s[k + i];
            }
          }
        }
        Some(r)
      else None
    else None
  }
}
