/** Inline code that its content cannot close (CommonMark 0.31.2, section 6.1). */
module CodeSpans {
  import opened Templates
  import opened Escaping

  function LeadingTicks(s: string): (n: nat)
    ensures n <= |s| && (n < |s| ==> s[n] != '`')
    ensures forall i :: 0 <= i < n ==> s[i] == '`'
  {
    if s == "" || s[0] != '`' then 0 else 1 + LeadingTicks(s[1..])
  }

  /** The longest run of backticks. */
  function LongestRun(s: string): nat {
    if s == "" then 0
    else if LeadingTicks(s) > LongestRun(s[1..]) then LeadingTicks(s) else LongestRun(s[1..])
  }

  function Ticks(n: nat): string {
    seq(n, i => '`')
  }

  function Padding(cleaned: string): string
    requires cleaned != ""
  {
    if cleaned[0] == '`' || cleaned[|cleaned| - 1] == '`' then " " else ""
  }

  function Body(cleaned: string): string
    requires cleaned != ""
  {
    Padding(cleaned) + cleaned + Padding(cleaned)
  }

  function Span(cleaned: string): string
    requires cleaned != ""
  {
    var fence := Ticks(LongestRun(cleaned) + 1);
    fence + Body(cleaned) + fence
  }

  function Code(text: string, limit: int): string {
    var cleaned := Truncate(StripControl(text), limit);
    if IsBlank(cleaned) then EscapeMarkdown(text, limit) else Span(cleaned)
  }

  /** A maximal run of backticks: a backtick string in the sense of section 6.1. */
  predicate IsBacktickString(s: string, i: int, j: int) {
    && 0 <= i < j <= |s|
    && (forall k :: i <= k < j ==> s[k] == '`')
    && (i > 0 ==> s[i - 1] != '`')
    && (j < |s| ==> s[j] != '`')
  }

  lemma {:induction false} RunsAreShort(s: string, i: nat, j: nat)
    requires i <= j <= |s| && forall k :: i <= k < j ==> s[k] == '`'
    ensures j - i <= LongestRun(s)
    decreases |s|
  {
    if s != "" && i < j {
      if i > 0 {
        assert forall k :: i - 1 <= k < j - 1 ==> s[1..][k] == s[k + 1];
        RunsAreShort(s[1..], i - 1, j - 1);
      } else {
        assert LeadingTicks(s) < |s| ==> s[LeadingTicks(s)] != '`';
      }
    }
  }

  /** Padding adds no backtick, so no run in the body is longer than in the text. */
  lemma BodyRunsAreShort(cleaned: string, i: nat, j: nat)
    requires cleaned != "" && i < j <= |Body(cleaned)| && forall k :: i <= k < j ==> Body(cleaned)[k] == '`'
    ensures j - i <= LongestRun(cleaned)
  {
    hide LongestRun;
    var p := |Padding(cleaned)|;
    assert i >= p && j <= p + |cleaned| by {
      assert p > 0 ==> Body(cleaned)[0] == ' ' && Body(cleaned)[|Body(cleaned)| - 1] == ' ';
    }
    forall k | i - p <= k < j - p ensures cleaned[k] == '`' {
      assert Body(cleaned)[k + p] == cleaned[k];
    }
    RunsAreShort(cleaned, i - p, j - p);
  }

  lemma BodyHasNoOuterTicks(cleaned: string)
    requires cleaned != ""
    ensures Body(cleaned) != "" && Body(cleaned)[0] != '`' && Body(cleaned)[|Body(cleaned)| - 1] != '`'
  {
  }

  lemma SpanParts(cleaned: string)
    requires cleaned != ""
    ensures var s, body, n := Span(cleaned), Body(cleaned), LongestRun(cleaned) + 1;
            && |s| == n + |body| + n && body != ""
            && (forall k :: 0 <= k < n ==> s[k] == '`')
            && (forall k :: 0 <= k < |body| ==> s[n + k] == body[k])
            && (forall k :: n + |body| <= k < |s| ==> s[k] == '`')
            && s[n] != '`' && s[n + |body| - 1] != '`'
  {
    hide LongestRun, Body;
    BodyHasNoOuterTicks(cleaned);
  }

  /** The opening fence is a backtick string, and so is the closing one. */
  lemma FencesAreStrings(cleaned: string)
    requires cleaned != ""
    ensures var s, n := Span(cleaned), LongestRun(cleaned) + 1;
            n < |s| - n && IsBacktickString(s, 0, n) && IsBacktickString(s, |s| - n, |s|)
  {
    hide LongestRun, Body, Span;
    SpanParts(cleaned);
  }

  /** The first backtick string of the fence's length after the opening fence is the closing one:
      nothing in between can end the span. */
  lemma FenceHolds(cleaned: string, i: int, j: int)
    requires cleaned != ""
    requires var n := LongestRun(cleaned) + 1; IsBacktickString(Span(cleaned), i, j) && i >= n && j - i == n
    ensures var s, n := Span(cleaned), LongestRun(cleaned) + 1; i == |s| - n && j == |s|
  {
    hide LongestRun, Body, Span;
    SpanParts(cleaned);
    var body, n := Body(cleaned), LongestRun(cleaned) + 1;
    if j <= n + |body| { InsideBody(cleaned, i - n, j - n); }
  }

  lemma InsideBody(cleaned: string, i: nat, j: nat)
    requires cleaned != "" && i < j <= |Body(cleaned)| && j - i == LongestRun(cleaned) + 1
    ensures exists k :: i <= k < j && Body(cleaned)[k] != '`'
  {
    hide LongestRun, Body;
    if forall k :: i <= k < j ==> Body(cleaned)[k] == '`' { BodyRunsAreShort(cleaned, i, j); }
  }

  /** What a reader sees of a span's content: a space goes from each end if both have one and
      the content is not all spaces. */
  function Shown(content: string): string {
    if |content| >= 2 && content[0] == ' ' && content[|content| - 1] == ' ' && !(forall i :: 0 <= i < |content| ==> content[i] == ' ')
    then content[1..|content| - 1]
    else content
  }

  /** The span shows the text itself, unless the text begins and ends with a space of its own. */
  lemma SpanShowsText(cleaned: string)
    requires !IsBlank(cleaned)
    ensures Shown(Body(cleaned)) == cleaned <==> !(cleaned[0] == ' ' && cleaned[|cleaned| - 1] == ' ')
  {
    var body := Body(cleaned);
    var i :| 0 <= i < |cleaned| && !IsSpace(cleaned[i]);
    if Padding(cleaned) == " " {
      assert body[i + 1] == cleaned[i];
      assert body[1..|body| - 1] == cleaned;
    } else {
      assert body == cleaned;
    }
  }

  /** Text that is nothing but backticks is still contained, not shown empty. */
  lemma CodeIsContained(text: string, limit: int, i: int, j: int)
    requires !IsBlank(Truncate(StripControl(text), limit))
    ensures var cleaned := Truncate(StripControl(text), limit);
            var s, n := Code(text, limit), LongestRun(cleaned) + 1;
            && n < |s| - n && IsBacktickString(s, 0, n) && IsBacktickString(s, |s| - n, |s|)
            && (IsBacktickString(s, i, j) && i >= n && j - i == n ==> i == |s| - n && j == |s|)
            && s[n..|s| - n] == Body(cleaned)
  {
    hide LongestRun, StripControl, Body, IsBlank;
    var cleaned := Truncate(StripControl(text), limit);
    NotBlankIsNotEmpty(cleaned);
    var s, n := Span(cleaned), LongestRun(cleaned) + 1;
    FencesAreStrings(cleaned);
    if IsBacktickString(s, i, j) && i >= n && j - i == n { FenceHolds(cleaned, i, j); }
  }

  lemma NotBlankIsNotEmpty(s: string)
    requires !IsBlank(s)
    ensures s != ""
  {
  }
}
