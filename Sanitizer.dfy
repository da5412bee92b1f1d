/**
 * `cleanContentForAI` of the analyze route: six regular-expression
 * replacements applied in a fixed order to the text the proxy returned. Each
 * global replacement is written as a left-to-right scanner with the same
 * matching rules as the JavaScript regular expression: at each position the
 * pattern is tried; on a match the replacement is emitted and the scan resumes
 * after the match, otherwise the character is kept and the scan moves on by
 * one.
 */
module Sanitizer {
  import opened Wrappers
  import opened Text

  /** A character in `[\s<>"']`: one that ends a URL, a query tail or an image marker. */
  predicate IsDelim(c: char) {
    IsSpace(c) || c == '<' || c == '>' || c == '"' || c == '\''
  }

  /** The length of the greedy run `[^\s<>"']*` at the start of `s`. */
  function NonDelimRun(s: string): (n: nat)
    ensures n <= |s|
    ensures forall k | 0 <= k < n :: !IsDelim(s[k])
    ensures n < |s| ==> IsDelim(s[n])
  {
    if s == [] || IsDelim(s[0]) then 0 else 1 + NonDelimRun(s[1..])
  }

  // ---------------------------------------------------------------------------
  // Passes 1 and 2: Markdown links and images

  /**
   * The part `label](target)` of a link whose label starts at `labelStart`:
   * `[^\]]*` up to the first `]`, then `(`, then a non-empty `[^)]+` up to the
   * first `)`. Yields the index of the `]` and the index just past the `)`.
   */
  function LinkTail(s: string, labelStart: nat): (r: Option<(nat, nat)>)
    ensures r.Some? ==> labelStart <= r.value.0 && r.value.0 + 3 < r.value.1 <= |s|
    ensures r.Some? ==> s[r.value.0] == ']' && s[r.value.0 + 1] == '(' && s[r.value.1 - 1] == ')'
    ensures r.Some? ==> forall k | labelStart <= k < r.value.0 :: s[k] != ']'
  {
    match IndexOf(s, ']', labelStart)
    case None => None
    case Some(j) =>
      if j + 1 < |s| && s[j + 1] == '(' then
        match IndexOf(s, ')', j + 2)
        case None => None
        case Some(k) => if k > j + 2 then Some((j, k + 1)) else None
      else None
  }

  /** `\[([^\]]+)\]\([^)]+\)` at the start of `s`: the label is `s[1..j]`, the link ends at `e`. */
  function LinkAt(s: string): Option<(nat, nat)> {
    if |s| > 0 && s[0] == '[' then
      match LinkTail(s, 1)
      case Some((j, e)) => if j > 1 then Some((j, e)) else None
      case None => None
    else None
  }

  /** Pass 1: every Markdown link `[text](url)` replaced by its text. */
  function ReplaceLinks(s: string): (r: string)
    ensures |r| <= |s|
    decreases |s|
  {
    if s == [] then []
    else match LinkAt(s)
      case Some((j, e)) => s[1..j] + ReplaceLinks(s[e..])
      case None => [s[0]] + ReplaceLinks(s[1..])
  }

  /** `!\[([^\]]*)\]\([^)]+\)` at the start of `s`: the alt text is `s[2..j]` and may be empty. */
  function ImageAt(s: string): Option<(nat, nat)> {
    if |s| > 1 && s[0] == '!' && s[1] == '[' then LinkTail(s, 2) else None
  }

  /** Pass 2: every Markdown image `![alt](url)` replaced by its alt text. */
  function ReplaceImages(s: string): (r: string)
    ensures |r| <= |s|
    decreases |s|
  {
    if s == [] then []
    else match ImageAt(s)
      case Some((j, e)) => s[2..j] + ReplaceImages(s[e..])
      case None => [s[0]] + ReplaceImages(s[1..])
  }

  // ---------------------------------------------------------------------------
  // Passes 3 to 5: a literal marker followed by a greedy `[^\s<>"']+`, removed

  /** `s` starts with `marker` followed by at least one non-delimiter. */
  predicate MarkerAt(s: string, marker: string) {
    |marker| < |s| && s[..|marker|] == marker && !IsDelim(s[|marker|])
  }

  /** Alternative `i` of `markers` matches at the start of `s`, and none before it does. */
  predicate FirstAlternative(s: string, markers: seq<string>, i: nat) {
    i < |markers| && MarkerAt(s, markers[i]) && forall j | 0 <= j < i :: !MarkerAt(s, markers[j])
  }

  /** The first of `markers` (the alternatives of the pattern, in order) that matches at the start of `s`. */
  function FirstMarker(s: string, markers: seq<string>): (r: Option<string>)
    ensures r.Some? ==> r.value in markers && MarkerAt(s, r.value)
    ensures r.Some? ==> exists i: nat :: FirstAlternative(s, markers, i) && markers[i] == r.value
    ensures r.None? ==> forall m | m in markers :: !MarkerAt(s, m)
  {
    if markers == [] then None
    else if MarkerAt(s, markers[0]) then
      assert FirstAlternative(s, markers, 0);
      Some(markers[0])
    else
      var rest := FirstMarker(s, markers[1..]);
      if rest.None? then rest
      else
        var i: nat :| FirstAlternative(s, markers[1..], i) && markers[1..][i] == rest.value;
        assert FirstAlternative(s, markers, i + 1);
        rest
  }

  /** The global replacement of `marker[^\s<>"']+` (any of `markers`) by the empty string. */
  function Strip(s: string, markers: seq<string>): (r: string)
    ensures |r| <= |s|
    decreases |s|
  {
    if s == [] then []
    else match FirstMarker(s, markers)
      case Some(m) => Strip(s[|m| + NonDelimRun(s[|m|..])..], markers)
      case None => [s[0]] + Strip(s[1..], markers)
  }

  /** Pass 3, `https?:\/\/[^\s<>"']+`: the greedy `s?` tries `https://` before `http://`. */
  const UrlSchemes: seq<string> := ["https://", "http://"]
  /** Pass 4, `\?[^\s<>"']+`. */
  const QueryTail: seq<string> := ["?"]
  /** Pass 5, first half, `\|imageView2[^\s<>"']+`. */
  const PipeImageView: seq<string> := ["|imageView2"]
  /** Pass 5, second half, `\?imageView2[^\s<>"']+`. */
  const QueryImageView: seq<string> := ["?imageView2"]

  // ---------------------------------------------------------------------------
  // Pass 6: runs of three or more newlines

  /** The length of the run of `\n` at the start of `s`. */
  function NewlineRun(s: string): (n: nat)
    ensures n <= |s|
    ensures forall k | 0 <= k < n :: s[k] == '\n'
    ensures n < |s| ==> s[n] != '\n'
  {
    if s == [] || s[0] != '\n' then 0 else 1 + NewlineRun(s[1..])
  }

  /** The global replacement of `\n{3,}` by `\n\n`; runs of one or two newlines are kept as they are. */
  function CollapseNewlines(s: string): (r: string)
    ensures |r| <= |s|
    decreases |s|
  {
    if s == [] then []
    else if s[0] != '\n' then [s[0]] + CollapseNewlines(s[1..])
    else
      var n := NewlineRun(s);
      (if n >= 3 then "\n\n" else s[..n]) + CollapseNewlines(s[n..])
  }

  // ---------------------------------------------------------------------------
  // The whole chain

  /** `cleanContentForAI`: the six passes in the order the route applies them. */
  function Clean(content: string): (r: string)
    ensures |r| <= |content|
  {
    var noLinks := ReplaceLinks(content);
    var noImages := ReplaceImages(noLinks);
    var noUrls := Strip(noImages, UrlSchemes);
    var noQueries := Strip(noUrls, QueryTail);
    var noPipeViews := Strip(noQueries, PipeImageView);
    var noQueryViews := Strip(noPipeViews, QueryImageView);
    CollapseNewlines(noQueryViews)
  }

  // ---------------------------------------------------------------------------
  // Pass 6: what the newline collapse guarantees

  /** No three consecutive `\n` anywhere in `s`. */
  predicate NoTripleNewline(s: string) {
    forall i | 0 <= i && i + 2 < |s| :: !(s[i] == '\n' && s[i + 1] == '\n' && s[i + 2] == '\n')
  }

  /** The collapse keeps the first character of a string that does not start with a newline. */
  lemma CollapseKeepsFirst(s: string)
    requires s != [] && s[0] != '\n'
    ensures CollapseNewlines(s) != [] && CollapseNewlines(s)[0] == s[0]
  {
  }

  /** After the collapse no run of three or more newlines is left. */
  lemma {:induction false} CollapseLeavesNoTriple(s: string)
    ensures NoTripleNewline(CollapseNewlines(s))
    decreases |s|
  {
    if s == [] {
    } else if s[0] != '\n' {
      CollapseLeavesNoTriple(s[1..]);
      var t := CollapseNewlines(s[1..]);
      assert CollapseNewlines(s) == [s[0]] + t;
      forall i | 0 <= i && i + 2 < |[s[0]] + t|
        ensures !(([s[0]] + t)[i] == '\n' && ([s[0]] + t)[i + 1] == '\n' && ([s[0]] + t)[i + 2] == '\n')
      {
        if i > 0 {
          assert ([s[0]] + t)[i] == t[i - 1];
        }
      }
    } else {
      var n := NewlineRun(s);
      var head: string := if n >= 3 then "\n\n" else s[..n];
      var rest := s[n..];
      var t := CollapseNewlines(rest);
      CollapseLeavesNoTriple(rest);
      assert CollapseNewlines(s) == head + t;
      assert 1 <= |head| <= 2;
      if rest != [] {
        CollapseKeepsFirst(rest);
      }
      var r := head + t;
      forall i | 0 <= i && i + 2 < |r|
        ensures !(r[i] == '\n' && r[i + 1] == '\n' && r[i + 2] == '\n')
      {
        if i >= |head| {
          assert r[i] == t[i - |head|] && r[i + 1] == t[i + 1 - |head|] && r[i + 2] == t[i + 2 - |head|];
        } else if i + 1 == |head| {
          assert r[i + 1] == t[0];
        } else {
          assert r[i + 2] == t[0];
        }
      }
    }
  }

  /** A string with no run of three newlines passes through the collapse unchanged. */
  lemma {:induction false} CollapseIdentity(s: string)
    requires NoTripleNewline(s)
    ensures CollapseNewlines(s) == s
    decreases |s|
  {
    if s == [] {
    } else if s[0] != '\n' {
      assert NoTripleNewline(s[1..]) by {
        forall i | 0 <= i && i + 2 < |s[1..]|
          ensures !(s[1..][i] == '\n' && s[1..][i + 1] == '\n' && s[1..][i + 2] == '\n')
        {
          assert s[1..][i] == s[i + 1] && s[1..][i + 1] == s[i + 2] && s[1..][i + 2] == s[i + 3];
        }
      }
      CollapseIdentity(s[1..]);
    } else {
      var n := NewlineRun(s);
      assert |s| >= 3 ==> !(s[0] == '\n' && s[1] == '\n' && s[2] == '\n');
      assert n < 3;
      var rest := s[n..];
      assert NoTripleNewline(rest) by {
        forall i | 0 <= i && i + 2 < |rest|
          ensures !(rest[i] == '\n' && rest[i + 1] == '\n' && rest[i + 2] == '\n')
        {
          assert rest[i] == s[i + n] && rest[i + 1] == s[i + 1 + n] && rest[i + 2] == s[i + 2 + n];
        }
      }
      CollapseIdentity(rest);
      assert s == s[..n] + rest;
    }
  }

  /** `s` with every `\n` removed. */
  function WithoutNewlines(s: string): (r: string)
    ensures '\n' !in r
  {
    if s == [] then [] else (if s[0] == '\n' then [] else [s[0]]) + WithoutNewlines(s[1..])
  }

  lemma {:induction false} WithoutNewlinesAppend(a: string, b: string)
    ensures WithoutNewlines(a + b) == WithoutNewlines(a) + WithoutNewlines(b)
  {
    if a == [] {
      assert a + b == b;
    } else {
      assert (a + b)[0] == a[0] && (a + b)[1..] == a[1..] + b;
      WithoutNewlinesAppend(a[1..], b);
    }
  }

  lemma {:induction false} AllNewlinesVanish(a: string)
    requires forall k | 0 <= k < |a| :: a[k] == '\n'
    ensures WithoutNewlines(a) == []
  {
    if a != [] {
      AllNewlinesVanish(a[1..]);
    }
  }

  /** The collapse deletes newlines and nothing else: every other character survives, in order. */
  lemma {:induction false} CollapseOnlyDropsNewlines(s: string)
    ensures WithoutNewlines(CollapseNewlines(s)) == WithoutNewlines(s)
    decreases |s|
  {
    if s == [] {
    } else if s[0] != '\n' {
      CollapseOnlyDropsNewlines(s[1..]);
      WithoutNewlinesAppend([s[0]], CollapseNewlines(s[1..]));
    } else {
      var n := NewlineRun(s);
      var head: string := if n >= 3 then "\n\n" else s[..n];
      var rest := s[n..];
      CollapseOnlyDropsNewlines(rest);
      WithoutNewlinesAppend(head, CollapseNewlines(rest));
      assert s == s[..n] + rest;
      WithoutNewlinesAppend(s[..n], rest);
      AllNewlinesVanish(head);
      AllNewlinesVanish(s[..n]);
    }
  }

  /** `n` newlines in a row. */
  function Newlines(n: nat): (r: string)
    ensures |r| == n && forall k | 0 <= k < n :: r[k] == '\n'
  {
    seq(n, _ => '\n')
  }

  /** A text that ends in a character other than `\n` ends every newline run inside it. */
  predicate EndsOutsideRun(a: string) {
    a == [] || a[|a| - 1] != '\n'
  }

  /** The leading newline run of `a + c` is that of `a` when `a` ends in another character. */
  lemma NewlineRunPrefix(a: string, c: string)
    requires a != [] && a[|a| - 1] != '\n'
    ensures NewlineRun(a + c) == NewlineRun(a) < |a|
  {
    assert forall k | 0 <= k < |a| :: (a + c)[k] == a[k];
  }

  /** The collapse works on either side of a non-newline character independently. */
  lemma {:induction false} CollapseAppend(a: string, c: string)
    requires EndsOutsideRun(a)
    ensures CollapseNewlines(a + c) == CollapseNewlines(a) + CollapseNewlines(c)
    decreases |a|
  {
    if a == [] {
      assert a + c == c;
    } else if a[0] != '\n' {
      CollapseAppend(a[1..], c);
      CollapseAppendChar(a, c);
    } else {
      NewlineRunPrefix(a, c);
      CollapseAppend(a[NewlineRun(a)..], c);
      CollapseAppendRun(a, c);
    }
  }

  /** The inductive step of `CollapseAppend` at a character other than `\n`. */
  lemma CollapseAppendChar(a: string, c: string)
    requires a != [] && a[0] != '\n'
    requires CollapseNewlines(a[1..] + c) == CollapseNewlines(a[1..]) + CollapseNewlines(c)
    ensures CollapseNewlines(a + c) == CollapseNewlines(a) + CollapseNewlines(c)
  {
    var x := CollapseNewlines(a[1..]);
    var y := CollapseNewlines(c);
    assert CollapseNewlines(a) == [a[0]] + x;
    assert CollapseNewlines(a + c) == [a[0]] + (x + y) by {
      assert (a + c)[0] == a[0] && (a + c)[1..] == a[1..] + c;
    }
    AppendRegroup([a[0]], x, y, CollapseNewlines(a + c), CollapseNewlines(a));
  }

  /** The inductive step of `CollapseAppend` at a run of newlines that ends inside `a`. */
  lemma CollapseAppendRun(a: string, c: string)
    requires a != [] && a[0] == '\n' && NewlineRun(a + c) == NewlineRun(a) < |a|
    requires CollapseNewlines(a[NewlineRun(a)..] + c)
      == CollapseNewlines(a[NewlineRun(a)..]) + CollapseNewlines(c)
    ensures CollapseNewlines(a + c) == CollapseNewlines(a) + CollapseNewlines(c)
  {
    var m := NewlineRun(a);
    var head: string := if m >= 3 then "\n\n" else a[..m];
    assert CollapseNewlines(a + c) == head + CollapseNewlines(a[m..] + c) by {
      assert (a + c)[..m] == a[..m] && (a + c)[m..] == a[m..] + c;
      CollapseRunStep(a + c, m, head);
    }
    assert CollapseNewlines(a) == head + CollapseNewlines(a[m..]) by {
      CollapseRunStep(a, m, head);
    }
    AppendRegroup(head, CollapseNewlines(a[m..]), CollapseNewlines(c), CollapseNewlines(a + c), CollapseNewlines(a));
  }

  /** Regrouping a concatenation of three strings, stated apart from what the strings are. */
  lemma AppendRegroup(h: string, x: string, y: string, l: string, r: string)
    requires l == h + (x + y) && r == h + x
    ensures l == r + y
  {
  }

  /** One step of the collapse at a leading run of `m` newlines, which it replaces by `head`. */
  lemma CollapseRunStep(s: string, m: nat, head: string)
    requires s != [] && s[0] == '\n' && m == NewlineRun(s)
    requires head == if m >= 3 then "\n\n" else s[..m]
    ensures CollapseNewlines(s) == head + CollapseNewlines(s[m..])
  {
  }

  /** A run of `n` newlines at the start is the leading run when another character, if any, follows it. */
  lemma NewlineRunOf(n: nat, b: string)
    requires b == [] || b[0] != '\n'
    ensures NewlineRun(Newlines(n) + b) == n
  {
    var run := Newlines(n) + b;
    assert forall k | 0 <= k < n :: run[k] == '\n';
    assert n < |run| ==> run[n] == b[0];
  }

  /** A leading run of `n` newlines becomes two when `n` is three or more and stays as it is otherwise. */
  lemma CollapseLeadingRun(n: nat, b: string)
    requires b == [] || b[0] != '\n'
    ensures CollapseNewlines(Newlines(n) + b) == Newlines(if n >= 3 then 2 else n) + CollapseNewlines(b)
  {
    var run := Newlines(n) + b;
    if n == 0 {
      assert run == b;
    } else {
      NewlineRunOf(n, b);
      assert run[0] == '\n' && run[..n] == Newlines(n) && run[n..] == b;
      assert "\n\n" == Newlines(2);
    }
  }

  /**
   * `\n{3,}` → `\n\n` acts on each newline run on its own: wherever a run of
   * `n` newlines sits between other characters, it becomes exactly two
   * newlines when `n` is three or more and stays as it is otherwise, and the
   * text on either side is collapsed independently.
   */
  lemma CollapseRun(a: string, n: nat, b: string)
    requires EndsOutsideRun(a)
    requires b == [] || b[0] != '\n'
    ensures CollapseNewlines(a + Newlines(n) + b)
      == CollapseNewlines(a) + Newlines(if n >= 3 then 2 else n) + CollapseNewlines(b)
  {
    assert a + Newlines(n) + b == a + (Newlines(n) + b);
    CollapseAppend(a, Newlines(n) + b);
    CollapseLeadingRun(n, b);
  }

  /**
   * In one text, a run of two newlines is kept while a run of three becomes
   * two: `a\n\nb\n\n\nc` collapses to `a\n\nb\n\nc` when `a`, `b` and `c` are
   * themselves free of newlines.
   */
  lemma CollapseMixedRuns(a: string, b: string, c: string)
    requires EndsOutsideRun(a)
    requires b != [] && b[0] != '\n' && b[|b| - 1] != '\n'
    requires c == [] || c[0] != '\n'
    ensures CollapseNewlines(a + Newlines(2) + b + Newlines(3) + c)
      == CollapseNewlines(a) + Newlines(2) + CollapseNewlines(b) + Newlines(2) + CollapseNewlines(c)
  {
    var left := a + Newlines(2) + b;
    assert left[|left| - 1] == b[|b| - 1];
    CollapseRun(left, 3, c);
    CollapseRun(a, 2, b);
  }

  // ---------------------------------------------------------------------------
  // Passes 1 and 2: what happens to links and images

  /** A link with a non-empty, `]`-free label and a non-empty, `)`-free target becomes its label. */
  lemma LinkBecomesLabel(text: string, url: string, rest: string)
    requires text != [] && ']' !in text
    requires url != [] && ')' !in url
    ensures ReplaceLinks("[" + text + "](" + url + ")" + rest) == text + ReplaceLinks(rest)
  {
    var s := "[" + text + "](" + url + ")" + rest;
    var j := 1 + |text|;
    var e := j + 2 + |url| + 1;
    assert s[1..j] == text;
    assert s[j] == ']' && s[j + 1] == '(';
    assert s[j + 2..e - 1] == url;
    assert s[e - 1] == ')';
    assert s[e..] == rest;
    forall k | 1 <= k < j ensures s[k] != ']' {
      assert s[k] == text[k - 1];
    }
    assert IndexOf(s, ']', 1) == Some(j);
    forall k | j + 2 <= k < e - 1 ensures s[k] != ')' {
      assert s[k] == url[k - j - 2];
    }
    assert IndexOf(s, ')', j + 2) == Some(e - 1);
    assert LinkAt(s) == Some((j, e));
  }

  /** A string without `]` holds no link and no image: both passes leave it alone. */
  lemma {:induction false} NoBracketUntouched(s: string)
    requires ']' !in s
    ensures ReplaceLinks(s) == s && ReplaceImages(s) == s
    decreases |s|
  {
    if s != [] {
      assert LinkAt(s).None? && ImageAt(s).None?;
      NoBracketUntouched(s[1..]);
    }
  }

  /**
   * Because the link pass runs first, an image with a non-empty alt text loses
   * only its brackets and target: `![alt](url)` comes out of the first two
   * passes as `!alt`.
   */
  lemma ImageWithAltKeepsBang(alt: string, url: string)
    requires alt != [] && ']' !in alt
    requires url != [] && ')' !in url
    ensures ReplaceImages(ReplaceLinks("![" + alt + "](" + url + ")")) == "!" + alt
  {
    var s := "![" + alt + "](" + url + ")";
    assert LinkAt(s).None?;
    assert s[1..] == "[" + alt + "](" + url + ")" + "";
    LinkBecomesLabel(alt, url, "");
    assert ReplaceLinks(s) == "!" + alt;
    NoBracketUntouched("!" + alt);
  }

  /** An image with an empty alt text, which the link pass cannot match, is removed by the image pass. */
  lemma EmptyAltImageVanishes(url: string, rest: string)
    requires url != [] && ')' !in url
    ensures ReplaceImages("![](" + url + ")" + rest) == ReplaceImages(rest)
  {
    var s := "![](" + url + ")" + rest;
    var e := 4 + |url| + 1;
    assert s[2] == ']' && s[3] == '(';
    assert IndexOf(s, ']', 2) == Some(2);
    forall k | 4 <= k < e - 1 ensures s[k] != ')' {
      assert s[k] == url[k - 4];
    }
    assert s[e - 1] == ')';
    assert IndexOf(s, ')', 4) == Some(e - 1);
    assert s[2..2] == [];
    assert s[e..] == rest;
  }

  // ---------------------------------------------------------------------------
  // Passes 3 to 6: which matches can survive

  /** Every marker is made of non-delimiters, as all four marker lists of the route are. */
  predicate NonDelimMarkers(markers: seq<string>) {
    forall m | m in markers :: forall k | 0 <= k < |m| :: !IsDelim(m[k])
  }

  /** No position of `s` starts a match of `markers`. */
  predicate NoMarked(s: string, markers: seq<string>)
    decreases |s|
  {
    s == [] || (FirstMarker(s, markers).None? && NoMarked(s[1..], markers))
  }

  lemma {:induction false} NoMarkedSuffix(s: string, markers: seq<string>, k: nat)
    requires NoMarked(s, markers) && k <= |s|
    ensures NoMarked(s[k..], markers)
    decreases k
  {
    if k > 0 {
      NoMarkedSuffix(s[1..], markers, k - 1);
      assert s[1..][k - 1..] == s[k..];
    }
  }

  /** `NoMarked` read position by position. */
  lemma {:induction false} NoMarkedEverywhere(s: string, markers: seq<string>)
    requires NoMarked(s, markers)
    ensures forall k, m | 0 <= k < |s| && m in markers :: !MarkerAt(s[k..], m)
  {
    forall k, m | 0 <= k < |s| && m in markers ensures !MarkerAt(s[k..], m) {
      NoMarkedSuffix(s, markers, k);
    }
  }

  /**
   * A match of a non-delimiter marker lies inside the leading non-delimiter run
   * of the string, so a string that agrees with `x` on that run matches too.
   */
  lemma MarkerWithinRun(x: string, y: string, m: string)
    requires forall k | 0 <= k < |m| :: !IsDelim(m[k])
    requires NonDelimRun(x) <= |y| && x[..NonDelimRun(x)] == y[..NonDelimRun(x)]
    ensures MarkerAt(x, m) ==> MarkerAt(y, m)
  {
    if MarkerAt(x, m) {
      var n := NonDelimRun(x);
      assert forall k | 0 <= k <= |m| :: !IsDelim(x[k]) by {
        forall k | 0 <= k <= |m| ensures !IsDelim(x[k]) {
          if k < |m| {
            assert x[k] == x[..|m|][k] == m[k];
          }
        }
      }
      assert n > |m|;
      assert y[..|m| + 1] == x[..n][..|m| + 1];
      assert y[..|m|] == y[..|m| + 1][..|m|];
    }
  }

  /** A string that starts with a delimiter starts no match of non-delimiter markers. */
  lemma DelimStartsNoMarker(s: string, markers: seq<string>)
    requires NonDelimMarkers(markers)
    requires s != [] && IsDelim(s[0])
    ensures FirstMarker(s, markers).None?
  {
    forall m | m in markers ensures !MarkerAt(s, m) {
      if 0 < |m| <= |s| {
        assert s[..|m|][0] == s[0];
      }
    }
  }

  /** The run of a string with one more character in front. */
  lemma RunOfCons(c: char, t: string)
    ensures NonDelimRun([c] + t) == if IsDelim(c) then 0 else 1 + NonDelimRun(t)
  {
    assert ([c] + t)[1..] == t;
  }

  /** Putting the same character in front keeps two strings' common prefix common. */
  lemma PrefixOfCons(c: char, t: string, u: string, n: nat)
    requires n <= |t| && n <= |u| && t[..n] == u[..n]
    ensures ([c] + t)[..n + 1] == ([c] + u)[..n + 1]
  {
    assert ([c] + t)[..n + 1] == [c] + t[..n];
    assert ([c] + u)[..n + 1] == [c] + u[..n];
  }

  /** The leading non-delimiter run of the stripped string is a prefix of the input. */
  lemma {:induction false} StripKeepsLeadingRun(s: string, markers: seq<string>)
    requires NonDelimMarkers(markers)
    ensures var r := Strip(s, markers);
      NonDelimRun(r) <= |s| && r[..NonDelimRun(r)] == s[..NonDelimRun(r)]
    decreases |s|
  {
    if s != [] {
      match FirstMarker(s, markers)
      case Some(m) =>
        var rest := s[|m| + NonDelimRun(s[|m|..])..];
        assert Strip(s, markers) == Strip(rest, markers);
        if rest != [] {
          assert rest[0] == s[|m|..][NonDelimRun(s[|m|..])];
          DelimStartsNoMarker(rest, markers);
          assert Strip(rest, markers) == [rest[0]] + Strip(rest[1..], markers);
          RunOfCons(rest[0], Strip(rest[1..], markers));
        }
      case None =>
        var r' := Strip(s[1..], markers);
        StripKeepsLeadingRun(s[1..], markers);
        assert Strip(s, markers) == [s[0]] + r';
        RunOfCons(s[0], r');
        assert s == [s[0]] + s[1..];
        if !IsDelim(s[0]) {
          PrefixOfCons(s[0], r', s[1..], NonDelimRun(r'));
        }
    }
  }

  /** A strip pass leaves no match of its own pattern behind. */
  lemma {:induction false} StripLeavesNoMarked(s: string, markers: seq<string>)
    requires NonDelimMarkers(markers)
    ensures NoMarked(Strip(s, markers), markers)
    decreases |s|
  {
    if s != [] {
      match FirstMarker(s, markers)
      case Some(m) =>
        StripLeavesNoMarked(s[|m| + NonDelimRun(s[|m|..])..], markers);
      case None =>
        var r := Strip(s, markers);
        StripLeavesNoMarked(s[1..], markers);
        StripKeepsLeadingRun(s, markers);
        forall m | m in markers ensures !MarkerAt(r, m) {
          MarkerWithinRun(r, s, m);
        }
        assert r[1..] == Strip(s[1..], markers);
    }
  }

  /** A strip pass creates no match of another non-delimiter pattern. */
  lemma {:induction false} StripKeepsNoMarked(s: string, markers: seq<string>, other: seq<string>)
    requires NonDelimMarkers(markers) && NonDelimMarkers(other)
    requires NoMarked(s, other)
    ensures NoMarked(Strip(s, markers), other)
    decreases |s|
  {
    if s != [] {
      match FirstMarker(s, markers)
      case Some(m) =>
        var k := |m| + NonDelimRun(s[|m|..]);
        NoMarkedSuffix(s, other, k);
        StripKeepsNoMarked(s[k..], markers, other);
      case None =>
        var r := Strip(s, markers);
        StripKeepsNoMarked(s[1..], markers, other);
        StripKeepsLeadingRun(s, markers);
        forall m | m in other ensures !MarkerAt(r, m) {
          MarkerWithinRun(r, s, m);
        }
        assert r[1..] == Strip(s[1..], markers);
    }
  }

  /** A string without matches is left unchanged by the strip pass. */
  lemma {:induction false} StripUnmatchedIdentity(s: string, markers: seq<string>)
    requires NoMarked(s, markers)
    ensures Strip(s, markers) == s
    decreases |s|
  {
    if s != [] {
      StripUnmatchedIdentity(s[1..], markers);
    }
  }

  /** The leading non-delimiter run of the collapsed string is a prefix of the input. */
  lemma {:induction false} CollapseKeepsLeadingRun(s: string)
    ensures var r := CollapseNewlines(s);
      NonDelimRun(r) <= |s| && r[..NonDelimRun(r)] == s[..NonDelimRun(r)]
    decreases |s|
  {
    if s != [] && s[0] != '\n' {
      var r' := CollapseNewlines(s[1..]);
      CollapseKeepsLeadingRun(s[1..]);
      assert CollapseNewlines(s) == [s[0]] + r';
      RunOfCons(s[0], r');
      assert s == [s[0]] + s[1..];
      if !IsDelim(s[0]) {
        PrefixOfCons(s[0], r', s[1..], NonDelimRun(r'));
      }
    } else if s != [] {
      var n := NewlineRun(s);
      var head: string := if n >= 3 then "\n\n" else s[..n];
      var r := head + CollapseNewlines(s[n..]);
      assert CollapseNewlines(s) == r;
      assert r == ['\n'] + r[1..];
      RunOfCons('\n', r[1..]);
    }
  }

  lemma {:induction false} NewlinesStartNoMarked(a: string, b: string, other: seq<string>)
    requires NonDelimMarkers(other)
    requires forall k | 0 <= k < |a| :: a[k] == '\n'
    requires NoMarked(b, other)
    ensures NoMarked(a + b, other)
  {
    if a == [] {
      assert a + b == b;
    } else {
      DelimStartsNoMarker(a + b, other);
      NewlinesStartNoMarked(a[1..], b, other);
      assert (a + b)[1..] == a[1..] + b;
    }
  }

  /** The newline collapse creates no match of a non-delimiter pattern. */
  lemma {:induction false} CollapseKeepsNoMarked(s: string, other: seq<string>)
    requires NonDelimMarkers(other)
    requires NoMarked(s, other)
    ensures NoMarked(CollapseNewlines(s), other)
    decreases |s|
  {
    if s != [] && s[0] != '\n' {
      var r := CollapseNewlines(s);
      CollapseKeepsNoMarked(s[1..], other);
      CollapseKeepsLeadingRun(s);
      forall m | m in other ensures !MarkerAt(r, m) {
        MarkerWithinRun(r, s, m);
      }
      assert r[1..] == CollapseNewlines(s[1..]);
    } else if s != [] {
      var n := NewlineRun(s);
      var head: string := if n >= 3 then "\n\n" else s[..n];
      NoMarkedSuffix(s, other, n);
      CollapseKeepsNoMarked(s[n..], other);
      NewlinesStartNoMarked(head, CollapseNewlines(s[n..]), other);
    }
  }

  /** A `?imageView2…` match is also a `?…` match. */
  lemma {:induction false} NoQueryTailNoQueryImageView(s: string)
    requires NoMarked(s, QueryTail)
    ensures NoMarked(s, QueryImageView)
    decreases |s|
  {
    if s != [] {
      ImageViewMarksQuery(s);
      NoQueryTailNoQueryImageView(s[1..]);
    }
  }

  lemma ImageViewMarksQuery(s: string)
    ensures MarkerAt(s, "?imageView2") ==> MarkerAt(s, "?")
  {
    if MarkerAt(s, "?imageView2") {
      assert s[..11][0] == s[0] && s[..11][1] == s[1];
    }
  }

  lemma MarkerNonDelim(m: string)
    requires forall c | c in m :: '!' <= c <= '~' && c != '<' && c != '>' && c != '"' && c != '\''
    ensures forall k | 0 <= k < |m| :: !IsDelim(m[k])
  {
    forall k | 0 <= k < |m| ensures !IsDelim(m[k]) {
      assert m[k] in m;
    }
  }

  lemma MarkerListsAreNonDelim()
    ensures NonDelimMarkers(UrlSchemes) && NonDelimMarkers(QueryTail)
    ensures NonDelimMarkers(PipeImageView) && NonDelimMarkers(QueryImageView)
  {
    SchemesAreNonDelim();
    QueryTailIsNonDelim();
    ImageViewsAreNonDelim();
  }

  lemma QueryTailIsNonDelim()
    ensures NonDelimMarkers(QueryTail)
  {
    MarkerNonDelim("?");
  }

  lemma SchemesAreNonDelim()
    ensures NonDelimMarkers(UrlSchemes)
  {
    MarkerNonDelim("https://");
    MarkerNonDelim("http://");
  }

  lemma ImageViewsAreNonDelim()
    ensures NonDelimMarkers(PipeImageView) && NonDelimMarkers(QueryImageView)
  {
    MarkerNonDelim("|imageView2");
    MarkerNonDelim("?imageView2");
  }

  /**
   * What the whole chain guarantees: no `http://` or `https://` followed by a
   * non-delimiter, no `?` followed by a non-delimiter, and no run of three
   * newlines survives; and the second `imageView2` replacement never changes
   * anything, since every `?imageView2…` was already removed as a query tail.
   */
  lemma CleanGuarantees(content: string)
    ensures var r := Clean(content);
      && NoTripleNewline(r)
      && (forall k, m | 0 <= k < |r| && m in UrlSchemes :: !MarkerAt(r[k..], m))
      && (forall k | 0 <= k < |r| :: !MarkerAt(r[k..], "?"))
    ensures var noQueries := Strip(Strip(ReplaceImages(ReplaceLinks(content)), UrlSchemes), QueryTail);
      var noPipeViews := Strip(noQueries, PipeImageView);
      Strip(noPipeViews, QueryImageView) == noPipeViews
  {
    MarkerListsAreNonDelim();
    var noImages := ReplaceImages(ReplaceLinks(content));
    var noUrls := Strip(noImages, UrlSchemes);
    StripLeavesNoMarked(noImages, UrlSchemes);
    var noQueries := Strip(noUrls, QueryTail);
    StripLeavesNoMarked(noUrls, QueryTail);
    StripKeepsNoMarked(noUrls, QueryTail, UrlSchemes);
    var noPipeViews := Strip(noQueries, PipeImageView);
    StripKeepsNoMarked(noQueries, PipeImageView, UrlSchemes);
    StripKeepsNoMarked(noQueries, PipeImageView, QueryTail);
    NoQueryTailNoQueryImageView(noPipeViews);
    StripUnmatchedIdentity(noPipeViews, QueryImageView);
    var r := CollapseNewlines(noPipeViews);
    assert r == Clean(content);
    CollapseKeepsNoMarked(noPipeViews, UrlSchemes);
    CollapseKeepsNoMarked(noPipeViews, QueryTail);
    CollapseLeavesNoTriple(noPipeViews);
    NoMarkedEverywhere(r, UrlSchemes);
    NoMarkedEverywhere(r, QueryTail);
  }

  // ---------------------------------------------------------------------------
  // The chain is not idempotent

  /** Without `[` there is no link to replace. */
  lemma {:induction false} NoOpenBracketUntouched(s: string)
    requires '[' !in s
    ensures ReplaceLinks(s) == s
  {
    if s != [] {
      NoOpenBracketUntouched(s[1..]);
    }
  }

  /** Without `!` there is no image to replace. */
  lemma {:induction false} NoBangUntouched(s: string)
    requires '!' !in s
    ensures ReplaceImages(s) == s
  {
    if s != [] {
      NoBangUntouched(s[1..]);
    }
  }

  lemma {:induction false} NoMarkerStartUntouched(s: string, markers: seq<string>)
    requires forall m | m in markers :: m != [] && m[0] !in s
    ensures Strip(s, markers) == s
  {
    if s != [] {
      forall m | m in markers ensures !MarkerAt(s, m) {
        if |m| <= |s| {
          assert s[..|m|][0] == s[0];
        }
      }
      NoMarkerStartUntouched(s[1..], markers);
    }
  }

  /**
   * When the link pass leaves a text with no character any later pass looks
   * for, the rest of the chain changes nothing.
   */
  lemma CleanStopsAfterLinks(s: string)
    requires var t := ReplaceLinks(s);
      '!' !in t && 'h' !in t && '?' !in t && '|' !in t && '\n' !in t
    ensures Clean(s) == ReplaceLinks(s)
  {
    var t := ReplaceLinks(s);
    NoBangUntouched(t);
    assert UrlSchemes[0][0] == 'h' && UrlSchemes[1][0] == 'h';
    NoMarkerStartUntouched(t, UrlSchemes);
    assert QueryTail[0][0] == '?';
    NoMarkerStartUntouched(t, QueryTail);
    assert PipeImageView[0][0] == '|';
    NoMarkerStartUntouched(t, PipeImageView);
    assert QueryImageView[0][0] == '?';
    NoMarkerStartUntouched(t, QueryImageView);
    assert NoTripleNewline(t) by {
      forall i | 0 <= i && i + 2 < |t| ensures t[i] != '\n' {
        assert t[i] in t;
      }
    }
    CollapseIdentity(t);
  }

  /** Text free of every character the passes look for, and of the link brackets. */
  predicate Plain(t: string) {
    '[' !in t && ']' !in t && '(' !in t && ')' !in t &&
    '!' !in t && 'h' !in t && '?' !in t && '|' !in t && '\n' !in t
  }

  lemma NestedLinkShape(a: string, b: string, c: string)
    requires Plain(a) && Plain(c)
    ensures ']' !in "[" + a && '[' !in "](" + c + ")"
    ensures "[[" + a + "](" + b + ")](" + c + ")" == "[" + ("[" + a) + "](" + b + ")" + ("](" + c + ")")
    ensures ("[" + a) + ("](" + c + ")") == "[" + a + "](" + c + ")"
  {
  }

  /** One link pass turns a link whose label is itself a link into that inner link. */
  lemma OuterLinkLeavesInner(a: string, b: string, c: string)
    requires a != [] && b != [] && c != []
    requires Plain(a) && Plain(b) && Plain(c)
    ensures ReplaceLinks("[[" + a + "](" + b + ")](" + c + ")") == "[" + a + "](" + c + ")"
  {
    var tail := "](" + c + ")";
    var inner := "[" + a;
    NestedLinkShape(a, b, c);
    LinkBecomesLabel(inner, b, tail);
    NoOpenBracketUntouched(tail);
  }

  /** One link pass turns a plain link into its label. */
  lemma PlainLinkLeavesLabel(a: string, c: string)
    requires a != [] && c != []
    requires Plain(a) && Plain(c)
    ensures ReplaceLinks("[" + a + "](" + c + ")") == a
  {
    assert "[" + a + "](" + c + ")" == "[" + a + "](" + c + ")" + "";
    LinkBecomesLabel(a, c, "");
  }

  /** The inner link left by the first pass holds no character the later passes look for. */
  lemma InnerLinkIsQuiet(a: string, c: string)
    requires Plain(a) && Plain(c)
    ensures var y := "[" + a + "](" + c + ")";
      '!' !in y && 'h' !in y && '?' !in y && '|' !in y && '\n' !in y
  {
  }

  /**
   * Cleaning twice can differ from cleaning once: the link pass scans once, so
   * the label of an outer link may itself be a link that only a second run
   * removes.
   */
  lemma CleanNotIdempotent(a: string, b: string, c: string)
    requires a != [] && b != [] && c != []
    requires Plain(a) && Plain(b) && Plain(c)
    ensures Clean("[[" + a + "](" + b + ")](" + c + ")") == "[" + a + "](" + c + ")"
    ensures Clean(Clean("[[" + a + "](" + b + ")](" + c + ")")) == a
  {
    var x := "[[" + a + "](" + b + ")](" + c + ")";
    var y := "[" + a + "](" + c + ")";
    OuterLinkLeavesInner(a, b, c);
    InnerLinkIsQuiet(a, c);
    CleanStopsAfterLinks(x);
    PlainLinkLeavesLabel(a, c);
    CleanStopsAfterLinks(y);
  }
}
