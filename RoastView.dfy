/**
 * How the page shows a roast: the text is split at `\n` and every line
 * becomes one block, a heading (`【…】`), a paragraph with bold parts
 * (`**…**`), a plain paragraph, or a spacer for a blank line. Above the roast
 * the card shows the blogger's name and either the avatar or a placeholder
 * letter.
 */
module RoastView {
  import opened Wrappers
  import opened Text
  import opened Json

  const BoldMarker: string := "**"
  const UnknownBlogger: string := "未知博主"

  datatype Span = Plain(text: string) | Strong(text: string)

  datatype Block =
    | Heading(text: string)
    | BoldParagraph(spans: seq<Span>)
    | Paragraph(text: string)
    | Spacer

  /** The parts of `line.split('**')`: even indices plain, odd indices bold. */
  function Spans(parts: seq<string>): (spans: seq<Span>)
    ensures |spans| == |parts|
    ensures forall j | 0 <= j < |parts| :: spans[j].text == parts[j] && (spans[j].Strong? <==> j % 2 == 1)
  {
    seq(|parts|, j requires 0 <= j < |parts| => if j % 2 == 0 then Plain(parts[j]) else Strong(parts[j]))
  }

  function SpanTexts(spans: seq<Span>): (texts: seq<string>)
    ensures |texts| == |spans| && forall j | 0 <= j < |spans| :: texts[j] == spans[j].text
  {
    seq(|spans|, j requires 0 <= j < |spans| => spans[j].text)
  }

  /** The block one line of the roast becomes. */
  function ClassifyLine(line: string): (b: Block)
    ensures b.Heading? <==> StartsWith(line, "【") && Contains(line, "】")
    ensures b.Spacer? <==> Blank(line)
    ensures b.Heading? || b.Paragraph? ==> b.text == line
    ensures b.BoldParagraph? <==> !b.Heading? && |Split(line, BoldMarker)| > 2
    ensures b.BoldParagraph? ==> SpanTexts(b.spans) == Split(line, BoldMarker)
    ensures b.BoldParagraph? ==> |b.spans| >= 3 && Join(SpanTexts(b.spans), BoldMarker) == line
    ensures b.BoldParagraph? ==> forall j | 0 <= j < |b.spans| :: b.spans[j].Strong? <==> j % 2 == 1
  {
    BlankLineShape(line);
    if StartsWith(line, "【") && Contains(line, "】") then Heading(line)
    else if Contains(line, BoldMarker) && |Split(line, BoldMarker)| > 2 then
      var parts := Split(line, BoldMarker);
      JoinSplit(line, BoldMarker);
      assert SpanTexts(Spans(parts)) == parts;
      BoldParagraph(Spans(parts))
    else if Trim(line) != "" then Paragraph(line)
    else Spacer
  }

  /** A line that starts with `【` or holds `**` is not blank. */
  lemma BlankLineShape(line: string)
    ensures StartsWith(line, "【") || Contains(line, BoldMarker) ==> !Blank(line)
  {
    if StartsWith(line, "【") {
      assert line[0] == line[..1][0] == '【' && !IsSpace('【');
    } else if Contains(line, BoldMarker) {
      var k :| 0 <= k <= |line| && OccursAt(line, BoldMarker, k);
      assert line[k] == line[k..k + 2][0] == '*' && !IsSpace('*');
    }
  }

  /** `result.split('\n').map(…)`: one block per line, so one more than there are line breaks. */
  function Render(result: string): (blocks: seq<Block>)
    ensures |blocks| == |Split(result, "\n")| == CountChar(result, '\n') + 1
    ensures forall i | 0 <= i < |blocks| :: blocks[i] == ClassifyLine(Split(result, "\n")[i])
  {
    var lines := Split(result, "\n");
    SplitCount(result, '\n');
    seq(|lines|, i requires 0 <= i < |lines| => ClassifyLine(lines[i]))
  }

  /** A line with a single `**` among no other asterisks is shown as a plain paragraph, marker included. */
  lemma SingleMarkerIsPlain(a: string, b: string)
    requires '*' !in a && '*' !in b
    requires !StartsWith(a + BoldMarker + b, "【")
    ensures ClassifyLine(a + BoldMarker + b) == Paragraph(a + BoldMarker + b)
  {
    var line := a + BoldMarker + b;
    assert OccursAt(line, BoldMarker, |a|);
    forall k | 0 <= k < |a| ensures !OccursAt(line, BoldMarker, k) {
      assert line[k] == a[k];
      assert a[k] in a;
    }
    assert Find(line, BoldMarker, 0) == Some(|a|);
    assert line[|a| + 2..] == b;
    forall k | 0 <= k <= |b| ensures !OccursAt(b, BoldMarker, k) {
      if k < |b| {
        assert b[k] in b;
      }
    }
    assert Find(b, BoldMarker, 0).None?;
    assert line[..|a|] == a;
    assert Split(b, BoldMarker) == [b];
    assert Split(line, BoldMarker) == [a] + Split(b, BoldMarker);
    assert line[|a|] == '*' && !IsSpace('*');
    assert !Blank(line);
  }

  // ---------------------------------------------------------------------------
  // The card header

  /** The `nickname` of the stored blogger, when it is a string. */
  function NicknameText(info: Option<Json>): Option<string> {
    if info.Some? then
      match Prop(info.value, "nickname")
      case Some(JStr(s)) => Some(s)
      case _ => None
    else None
  }

  /** `bloggerInfo?.nickname || "未知博主"`. */
  function HeaderName(info: Option<Json>): (name: string)
    ensures name != ""
    ensures NicknameText(info).Some? && NicknameText(info).value != "" ==> name == NicknameText(info).value
    ensures NicknameText(info).None? || NicknameText(info).value == "" ==> name == UnknownBlogger
  {
    match NicknameText(info)
    case Some(s) => if s != "" then s else UnknownBlogger
    case None => UnknownBlogger
  }

  /** The avatar image is shown when `bloggerInfo?.avatar` is truthy. */
  predicate ShowsAvatar(info: Option<Json>) {
    info.Some? && TruthyField(Prop(info.value, "avatar"))
  }

  /** The placeholder letter: `bloggerInfo?.nickname ? bloggerInfo.nickname.charAt(0) : "?"`. */
  function AvatarPlaceholder(info: Option<Json>): (letter: string)
    ensures |letter| == 1
    ensures NicknameText(info).Some? && NicknameText(info).value != "" ==> letter == HeaderName(info)[..1]
    ensures NicknameText(info).None? || NicknameText(info).value == "" ==> letter == "?"
  {
    match NicknameText(info)
    case Some(s) => if s != "" then [s[0]] else "?"
    case None => "?"
  }
}
