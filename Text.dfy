/**
 * String operations of the JavaScript runtime that the analyze route and the
 * page rely on: the `\s` character class, `.` (anything but a line
 * terminator), `startsWith`, `includes`, `indexOf`, `trim`, `split` and
 * `join`. A JavaScript string is modelled as a sequence of `char`. A `char`
 * is a Unicode scalar value, so a character outside the Basic Multilingual
 * Plane is one element here where JavaScript counts two UTF-16 code units.
 */
module Text {
  import opened Wrappers

  /** The line terminators that `.` does not match and `\s` does. */
  predicate IsLineTerminator(c: char) {
    c == '\n' || c == '\r' || c == '\U{2028}' || c == '\U{2029}'
  }

  /** ECMAScript WhiteSpace or LineTerminator: what `\s` matches and `trim` removes. */
  predicate IsSpace(c: char) {
    || IsLineTerminator(c)
    || c == '\t' || c == '\U{000B}' || c == '\U{000C}' || c == ' ' || c == '\U{00A0}'
    || c == '\U{1680}' || ('\U{2000}' <= c <= '\U{200A}')
    || c == '\U{202F}' || c == '\U{205F}' || c == '\U{3000}' || c == '\U{FEFF}'
  }

  /** The CJK range `一-龥` used by the extraction patterns. */
  predicate IsCjk(c: char) {
    '\U{4e00}' <= c <= '\U{9fa5}'
  }

  predicate IsAsciiAlnum(c: char) {
    ('a' <= c <= 'z') || ('A' <= c <= 'Z') || ('0' <= c <= '9')
  }

  predicate StartsWith(s: string, p: string) {
    |p| <= |s| && s[..|p|] == p
  }

  /** `p` occurs in `s` starting at index `k`. */
  predicate OccursAt(s: string, p: string, k: int) {
    0 <= k && k + |p| <= |s| && s[k..k + |p|] == p
  }

  lemma OccursAtEnd(a: string, b: string)
    ensures OccursAt(a + b, b, |a|)
  {
    assert (a + b)[|a|..|a| + |b|] == b;
  }

  /** Appending to a string changes no occurrence that lies wholly inside it. */
  lemma OccursExtend(x: string, y: string, p: string, k: nat)
    requires k + |p| <= |x|
    ensures OccursAt(x + y, p, k) <==> OccursAt(x, p, k)
  {
    assert (x + y)[k..k + |p|] == x[k..k + |p|];
  }

  /** An occurrence of `u + v` is an occurrence of `u` followed by one of `v`. */
  lemma OccursSplit(s: string, u: string, v: string, k: nat)
    requires OccursAt(s, u + v, k)
    ensures OccursAt(s, u, k) && OccursAt(s, v, k + |u|)
  {
    assert s[k..k + |u|] == (u + v)[..|u|];
    assert s[k + |u|..k + |u| + |v|] == (u + v)[|u|..];
  }

  /** Appending to a string and then more changes no occurrence inside the first two parts. */
  lemma OccursRegroup(a: string, b: string, c: string, p: string, k: nat)
    requires k + |p| <= |a| + |b|
    ensures OccursAt(a + (b + c), p, k) <==> OccursAt(a + b, p, k)
  {
    assert (a + (b + c))[k..k + |p|] == (a + b)[k..k + |p|];
  }

  /** `s.includes(p)`. */
  predicate Contains(s: string, p: string) {
    exists k | 0 <= k <= |s| :: OccursAt(s, p, k)
  }

  /** `s.indexOf(p, from)`, as an option: the first occurrence at or after `from`. */
  function Find(s: string, p: string, from: nat): (r: Option<nat>)
    ensures r.Some? ==> from <= r.value && OccursAt(s, p, r.value)
    ensures r.Some? ==> forall k | from <= k < r.value :: !OccursAt(s, p, k)
    ensures r.None? ==> forall k | from <= k <= |s| :: !OccursAt(s, p, k)
    decreases |s| - from
  {
    if OccursAt(s, p, from) then Some(from)
    else if from >= |s| then None
    else Find(s, p, from + 1)
  }

  lemma FindIffContains(s: string, p: string)
    ensures Find(s, p, 0).Some? <==> Contains(s, p)
  {
  }

  /** The first index at or after `from` that holds the character `c`. */
  function IndexOf(s: string, c: char, from: nat): (r: Option<nat>)
    ensures r.Some? ==> from <= r.value < |s| && s[r.value] == c
    ensures r.Some? ==> forall k | from <= k < r.value :: s[k] != c
    ensures r.None? ==> forall k | from <= k < |s| :: s[k] != c
    decreases |s| - from
  {
    if from >= |s| then None
    else if s[from] == c then Some(from)
    else IndexOf(s, c, from + 1)
  }

  /** Every character of `s` is white space: `s.trim() === ''`. */
  predicate Blank(s: string) {
    forall k | 0 <= k < |s| :: IsSpace(s[k])
  }

  /** The end of the run of white space that starts at `i`. */
  function SpaceRunEnd(s: string, i: nat): (n: nat)
    requires i <= |s|
    ensures i <= n <= |s|
    ensures forall k | i <= k < n :: IsSpace(s[k])
    ensures n < |s| ==> !IsSpace(s[n])
    decreases |s| - i
  {
    if i < |s| && IsSpace(s[i]) then SpaceRunEnd(s, i + 1) else i
  }

  /** The start of the run of white space that ends at `e`. */
  function SpaceRunStart(s: string, e: nat): (n: nat)
    requires e <= |s|
    ensures n <= e
    ensures forall k | n <= k < e :: IsSpace(s[k])
    ensures n > 0 ==> !IsSpace(s[n - 1])
  {
    if e > 0 && IsSpace(s[e - 1]) then SpaceRunStart(s, e - 1) else e
  }

  /** `s.trim()`: the white space at both ends removed. */
  function Trim(s: string): (r: string)
    ensures r == [] <==> Blank(s)
    ensures r != [] ==> !IsSpace(r[0]) && !IsSpace(r[|r| - 1])
    ensures (forall k | 0 <= k < |s| :: !IsSpace(s[k])) ==> r == s
    ensures exists a, b | 0 <= a <= b <= |s| :: TrimmedAt(s, a, b) && r == s[a..b]
  {
    var start := SpaceRunEnd(s, 0);
    var end := SpaceRunStart(s, |s|);
    TrimBounds(s, start, end);
    if start < end then s[start..end] else []
  }

  /** The white space runs at both ends of `s` either leave a slice between them or cover all of `s`. */
  lemma TrimBounds(s: string, start: nat, end: nat)
    requires start == SpaceRunEnd(s, 0) && end == SpaceRunStart(s, |s|)
    ensures start < end ==> TrimmedAt(s, start, end) && !Blank(s)
    ensures start < end ==> var r := s[start..end]; r != [] && !IsSpace(r[0]) && !IsSpace(r[|r| - 1])
    ensures start < end && (forall k | 0 <= k < |s| :: !IsSpace(s[k])) ==> s[start..end] == s
    ensures start >= end ==> Blank(s) && TrimmedAt(s, |s|, |s|) && [] == s[|s|..|s|]
  {
    if start < end {
      assert s[start..end][0] == s[start] && s[start..end][end - start - 1] == s[end - 1];
      assert !IsSpace(s[start]);
    } else {
      assert start == |s|;
    }
  }

  /** `s[a..b]` is `s` with only white space before `a` and after `b` removed. */
  predicate TrimmedAt(s: string, a: nat, b: nat)
    requires a <= b <= |s|
  {
    (forall k | 0 <= k < a :: IsSpace(s[k])) && (forall k | b <= k < |s| :: IsSpace(s[k]))
  }

  /**
   * `s.split(sep)` for a non-empty separator: cut at the leftmost occurrence,
   * then the rest after it split the same way.
   */
  function Split(s: string, sep: string): (parts: seq<string>)
    requires sep != ""
    ensures |parts| >= 1
    ensures forall i | 0 <= i < |parts| :: !Contains(parts[i], sep)
    decreases |s|
  {
    match Find(s, sep, 0)
    case None => [s]
    case Some(i) =>
      var head := s[..i];
      assert !Contains(head, sep) by {
        forall k | 0 <= k <= |head| ensures !OccursAt(head, sep, k) {
          if OccursAt(head, sep, k) {
            assert s[k..k + |sep|] == head[k..k + |sep|];
            assert OccursAt(s, sep, k) && k < i;
          }
        }
      }
      [head] + Split(s[i + |sep|..], sep)
  }

  /** `parts.join(sep)`. */
  function Join(parts: seq<string>, sep: string): string {
    if |parts| == 0 then ""
    else if |parts| == 1 then parts[0]
    else parts[0] + sep + Join(parts[1..], sep)
  }

  /** Joining the parts of a split with the separator gives back the string. */
  lemma {:induction false} JoinSplit(s: string, sep: string)
    requires sep != ""
    ensures Join(Split(s, sep), sep) == s
    decreases |s|
  {
    match Find(s, sep, 0)
    case None =>
    case Some(i) =>
      var rest := s[i + |sep|..];
      var parts := Split(rest, sep);
      JoinSplit(rest, sep);
      assert Split(s, sep) == [s[..i]] + parts;
      assert ([s[..i]] + parts)[1..] == parts;
      assert Join([s[..i]] + parts, sep) == s[..i] + sep + rest;
      assert s[i..i + |sep|] == sep;
      assert s == s[..i] + s[i..i + |sep|] + rest;
  }

  function CountChar(s: string, c: char): nat {
    if s == [] then 0 else (if s[0] == c then 1 else 0) + CountChar(s[1..], c)
  }

  lemma {:induction false} CountCharAppend(a: string, b: string, c: char)
    ensures CountChar(a + b, c) == CountChar(a, c) + CountChar(b, c)
  {
    if a == [] {
      assert a + b == b;
    } else {
      assert (a + b)[1..] == a[1..] + b;
      CountCharAppend(a[1..], b, c);
    }
  }

  lemma {:induction false} CountCharAbsent(s: string, c: char)
    requires c !in s
    ensures CountChar(s, c) == 0
  {
    if s != [] {
      CountCharAbsent(s[1..], c);
    }
  }

  /** Splitting on one character gives one more part than there are occurrences of it. */
  lemma {:induction false} SplitCount(s: string, c: char)
    ensures |Split(s, [c])| == CountChar(s, c) + 1
    decreases |s|
  {
    match Find(s, [c], 0)
    case None =>
      forall k | 0 <= k < |s| ensures s[k] != c {
        assert !OccursAt(s, [c], k);
      }
      CountCharAbsent(s, c);
    case Some(i) =>
      var rest := s[i + 1..];
      SplitCount(rest, c);
      assert s == s[..i] + [c] + rest;
      forall k | 0 <= k < i ensures s[..i][k] != c {
        assert !OccursAt(s, [c], k);
      }
      CountCharAbsent(s[..i], c);
      CountCharAppend(s[..i] + [c], rest, c);
      CountCharAppend(s[..i], [c], c);
  }

  /**
   * `part` followed by `sep` holds `sep` only where it ends: the cut after
   * `part` is at the leftmost occurrence of `sep` in what remains.
   */
  predicate CutAtFirst(part: string, sep: string)
    requires sep != ""
  {
    !Contains(part + sep[..|sep| - 1], sep)
  }

  /** The text before the leftmost occurrence is cut there. */
  lemma FirstCut(s: string, sep: string, i: nat)
    requires sep != "" && Find(s, sep, 0) == Some(i)
    ensures CutAtFirst(s[..i], sep)
  {
    var t := s[..i] + sep[..|sep| - 1];
    assert t == s[..i + |sep| - 1];
    forall k | 0 <= k <= |t| ensures !OccursAt(t, sep, k) {
      if OccursAt(t, sep, k) {
        assert s[k..k + |sep|] == t[k..k + |sep|];
        assert OccursAt(s, sep, k);
      }
    }
  }

  /** A part cut at the leftmost occurrence is followed by the first occurrence of the separator. */
  lemma CutFind(p: string, sep: string, rest: string)
    requires sep != "" && CutAtFirst(p, sep)
    ensures Find(p + sep + rest, sep, 0) == Some(|p|)
  {
    var s := p + sep + rest;
    var t := p + sep[..|sep| - 1];
    assert s[|p|..|p| + |sep|] == sep;
    assert s[..|p| + |sep| - 1] == t;
    forall k | 0 <= k < |p| ensures !OccursAt(s, sep, k) {
      if OccursAt(s, sep, k) {
        assert t[k..k + |sep|] == s[k..k + |sep|];
        assert OccursAt(t, sep, k);
      }
    }
    FindIs(s, sep, |p|);
  }

  /** An occurrence with none before it is the one `indexOf` finds. */
  lemma FindIs(s: string, p: string, m: nat)
    requires OccursAt(s, p, m) && forall k | 0 <= k < m :: !OccursAt(s, p, k)
    ensures Find(s, p, 0) == Some(m)
  {
    assert Find(s, p, 0).Some?;
  }

  /** Every cut `split` makes is at the leftmost occurrence of the separator in what remains. */
  lemma {:induction false} SplitCutsLeftmost(s: string, sep: string)
    requires sep != ""
    ensures var parts := Split(s, sep);
      forall i | 0 <= i < |parts| - 1 :: CutAtFirst(parts[i], sep)
    decreases |s|
  {
    match Find(s, sep, 0)
    case None =>
    case Some(i) =>
      var rest := s[i + |sep|..];
      SplitCutsLeftmost(rest, sep);
      FirstCut(s, sep, i);
      assert Split(s, sep) == [s[..i]] + Split(rest, sep);
  }

  /**
   * `split` is the only way to cut `s` into parts that join back to `s`, each
   * cut at the leftmost occurrence of the separator and the last part free of
   * it.
   */
  lemma {:induction false} SplitUnique(s: string, sep: string, parts: seq<string>)
    requires sep != "" && parts != []
    requires Join(parts, sep) == s
    requires !Contains(parts[|parts| - 1], sep)
    requires forall i | 0 <= i < |parts| - 1 :: CutAtFirst(parts[i], sep)
    ensures parts == Split(s, sep)
    decreases |parts|
  {
    if |parts| == 1 {
      FindIffContains(s, sep);
    } else {
      var p := parts[0];
      var rest := Join(parts[1..], sep);
      assert s == p + sep + rest;
      CutFind(p, sep, rest);
      assert s[..|p|] == p && s[|p| + |sep|..] == rest;
      assert parts[1..][|parts| - 2] == parts[|parts| - 1];
      SplitUnique(rest, sep, parts[1..]);
    }
  }

  /** `"****".split("**")` is `["", "", ""]`: two bold markers with nothing between them. */
  lemma SplitMarkers()
    ensures Split("****", "**") == ["", "", ""]
  {
    var parts := ["", "", ""];
    assert Join(parts[2..], "**") == "";
    assert Join(parts[1..], "**") == "**";
    assert Join(parts, "**") == "****";
    assert !Contains("*", "**");
    assert !Contains("", "**");
    SplitUnique("****", "**", parts);
  }
}
