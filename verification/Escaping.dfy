/** Text made safe for Markdown, and the way back. */
module Escaping {
  import opened Pointers

  // ----- control characters -----

  predicate IsControl(c: char) {
    '\U{0}' <= c <= '\U{8}' || c == '\U{B}' || c == '\U{C}' || '\U{E}' <= c <= '\U{1F}' || c == '\U{7F}'
  }

  predicate IsZeroWidth(c: char) {
    || '\U{200B}' <= c <= '\U{200F}' || '\U{2028}' <= c <= '\U{2029}' || '\U{202A}' <= c <= '\U{202E}'
    || '\U{2060}' <= c <= '\U{2064}' || c == '\U{FEFF}'
  }

  function Without(s: string, drop: char -> bool): string {
    if s == "" then "" else (if drop(s[0]) then "" else [s[0]]) + Without(s[1..], drop)
  }

  /** `s.replace("\r\n", " ")`. */
  function JoinBreaks(s: string): string {
    if s == "" then ""
    else if |s| >= 2 && s[0] == '\r' && s[1] == '\n' then " " + JoinBreaks(s[2..])
    else [s[0]] + JoinBreaks(s[1..])
  }

  function StripControl(text: string): string {
    var cleaned := Without(Without(text, IsControl), IsZeroWidth);
    ReplaceChar(ReplaceChar(ReplaceChar(JoinBreaks(cleaned), '\n', " "), '\r', " "), '\t', " ")
  }

  /** Nothing that hides or reorders text, and a single line. */
  predicate IsClean(s: string) {
    forall i :: 0 <= i < |s| ==> !IsControl(s[i]) && !IsZeroWidth(s[i]) && s[i] !in "\n\r\t"
  }

  lemma {:induction false} WithoutKeeps(s: string, drop: char -> bool)
    ensures forall i :: 0 <= i < |Without(s, drop)| ==> !drop(Without(s, drop)[i]) && Without(s, drop)[i] in s
    ensures (forall i :: 0 <= i < |s| ==> !drop(s[i])) ==> Without(s, drop) == s
  {
    if s != "" {
      WithoutKeeps(s[1..], drop);
      assert s == [s[0]] + s[1..];
    }
  }

  lemma {:induction false} JoinKeeps(s: string)
    ensures forall c :: c in JoinBreaks(s) ==> c == ' ' || c in s
    ensures '\r' !in s ==> JoinBreaks(s) == s
  {
    if s == "" {
    } else if |s| >= 2 && s[0] == '\r' && s[1] == '\n' {
      JoinKeeps(s[2..]);
    } else {
      JoinKeeps(s[1..]);
      assert s == [s[0]] + s[1..];
    }
  }

  lemma {:induction false} SpacedOut(s: string, c: char)
    requires c != ' '
    ensures c !in ReplaceChar(s, c, " ")
    ensures forall d :: d in ReplaceChar(s, c, " ") ==> d == ' ' || d in s
    ensures c !in s ==> ReplaceChar(s, c, " ") == s
  {
    if s != "" {
      SpacedOut(s[1..], c);
      assert s == [s[0]] + s[1..];
    }
  }

  /** Stripping leaves clean text, and leaves clean text alone. */
  lemma StripCleans(text: string)
    ensures IsClean(StripControl(text))
    ensures IsClean(text) ==> StripControl(text) == text
  {
    hide Without, JoinBreaks, ReplaceChar;
    var a := Without(text, IsControl);
    var b := Without(a, IsZeroWidth);
    WithoutKeeps(text, IsControl);
    WithoutKeeps(a, IsZeroWidth);
    var c := JoinBreaks(b);
    JoinKeeps(b);
    var d := ReplaceChar(c, '\n', " ");
    SpacedOut(c, '\n');
    var e := ReplaceChar(d, '\r', " ");
    SpacedOut(d, '\r');
    SpacedOut(e, '\t');
    forall x | x in StripControl(text) ensures !IsControl(x) && !IsZeroWidth(x) {
      if x != ' ' {
        assert x in b && x in a;
        var i :| 0 <= i < |b| && b[i] == x;
        var j :| 0 <= j < |a| && a[j] == x;
      }
    }
    if IsClean(text) {
      assert forall x :: x in text ==> x !in "\n\r\t";
    }
  }

  // ----- truncation -----

  const ELLIPSIS: char := '\U{2026}'

  predicate Fits(text: string, limit: int) {
    limit <= 1 || |text| <= limit
  }

  function Truncate(text: string, limit: int): (r: string)
    ensures limit > 1 ==> |r| <= limit
    ensures Fits(text, limit) ==> r == text
    ensures !Fits(text, limit) ==> |r| == limit && r[..limit - 1] <= text && r[limit - 1] == ELLIPSIS
  {
    if Fits(text, limit) then text else text[..limit - 1] + [ELLIPSIS]
  }

  // ----- Markdown -----

  const SPECIALS := "\\`*_{}[]()#+-.!|~"

  predicate IsSpecial(c: char) {
    c in SPECIALS
  }

  const MENTION_BREAK := "@<!---->"

  function Backslashed(s: string): string {
    if s == "" then "" else (if IsSpecial(s[0]) then ['\\', s[0]] else [s[0]]) + Backslashed(s[1..])
  }

  /** What one character becomes. */
  function EncodeChar(c: char): string {
    if c == '&' then "&amp;"
    else if c == '<' then "&lt;"
    else if c == '>' then "&gt;"
    else if c == '@' then MENTION_BREAK
    else if IsSpecial(c) then ['\\', c]
    else [c]
  }

  function Encode(s: string): string {
    if s == "" then "" else EncodeChar(s[0]) + Encode(s[1..])
  }

  function EscapeMarkdown(text: string, limit: int): string {
    Truncate(Encode(StripControl(text)), limit)
  }

  function Entities(s: string): string {
    ReplaceChar(ReplaceChar(ReplaceChar(s, '&', "&amp;"), '<', "&lt;"), '>', "&gt;")
  }

  /** Five passes over the text amount to encoding each character once. */
  method EscapeMarkdownByPasses(text: string, limit: int) returns (escaped: string)
    ensures escaped == EscapeMarkdown(text, limit)
  {
    hide ReplaceChar, StripControl;
    var cleaned := StripControl(text);
    var table := [('&', "&amp;"), ('<', "&lt;"), ('>', "&gt;")];
    ghost var whole := Entities(cleaned);
    for i := 0 to |table|
      invariant i == 0 ==> Entities(cleaned) == whole
      invariant i == 1 ==> ReplaceChar(ReplaceChar(cleaned, '<', "&lt;"), '>', "&gt;") == whole
      invariant i == 2 ==> ReplaceChar(cleaned, '>', "&gt;") == whole
      invariant i == 3 ==> cleaned == whole
    {
      cleaned := ReplaceChar(cleaned, table[i].0, table[i].1);
    }
    escaped := Backslashed(cleaned);
    escaped := ReplaceChar(escaped, '@', MENTION_BREAK);
    PassesEncode(StripControl(text));
    escaped := Truncate(escaped, limit);
  }

  lemma {:induction false} BackslashedConcat(s: string, t: string)
    ensures Backslashed(s + t) == Backslashed(s) + Backslashed(t)
  {
    if s == "" {
      assert s + t == t;
    } else {
      assert (s + t)[1..] == s[1..] + t;
      BackslashedConcat(s[1..], t);
    }
  }

  lemma {:induction false} Untouched(s: string, c: char, text: string)
    requires c !in s
    ensures ReplaceChar(s, c, text) == s
  {
    if s != "" {
      Untouched(s[1..], c, text);
      assert s == [s[0]] + s[1..];
    }
  }

  lemma ReplaceOne(c: char, d: char, text: string)
    ensures ReplaceChar([c], d, text) == if c == d then text else [c]
  {
    assert [c][1..] == "";
  }

  lemma {:induction false} PlainStays(s: string)
    requires forall i :: 0 <= i < |s| ==> !IsSpecial(s[i])
    ensures Backslashed(s) == s
  {
    if s != "" {
      PlainStays(s[1..]);
      assert s == [s[0]] + s[1..];
    }
  }

  /** The entity passes, one character at a time; later passes leave earlier entities alone. */
  lemma EntitiesOfOne(c: char)
    ensures Entities([c]) == if c == '&' then "&amp;" else if c == '<' then "&lt;" else if c == '>' then "&gt;" else [c]
  {
    hide ReplaceChar;
    ReplaceOne(c, '&', "&amp;");
    if c == '&' {
      Untouched("&amp;", '<', "&lt;");
      Untouched("&amp;", '>', "&gt;");
    } else {
      ReplaceOne(c, '<', "&lt;");
      if c == '<' { Untouched("&lt;", '>', "&gt;"); } else { ReplaceOne(c, '>', "&gt;"); }
    }
  }

  lemma EntitiesConcat(s: string, t: string)
    ensures Entities(s + t) == Entities(s) + Entities(t)
  {
    hide ReplaceChar;
    ReplaceCharConcat(s, t, '&', "&amp;");
    var s1, t1 := ReplaceChar(s, '&', "&amp;"), ReplaceChar(t, '&', "&amp;");
    ReplaceCharConcat(s1, t1, '<', "&lt;");
    ReplaceCharConcat(ReplaceChar(s1, '<', "&lt;"), ReplaceChar(t1, '<', "&lt;"), '>', "&gt;");
  }

  lemma OneCharEncodes(c: char)
    ensures ReplaceChar(Backslashed(Entities([c])), '@', MENTION_BREAK) == EncodeChar(c)
  {
    hide ReplaceChar, Entities, Backslashed, IsSpecial;
    EntitiesOfOne(c);
    if c in "&<>" {
      EntityIsPlain(c);
      assert Entities([c]) == EncodeChar(c);
      PlainStays(Entities([c]));
      Untouched(Entities([c]), '@', MENTION_BREAK);
    } else {
      BackslashedOne(c);
      if IsSpecial(c) {
        assert c != '@' by { AtIsNotSpecial(); }
        Untouched(['\\', c], '@', MENTION_BREAK);
      } else {
        ReplaceOne(c, '@', MENTION_BREAK);
      }
    }
  }

  lemma AtIsNotSpecial()
    ensures !IsSpecial('@')
  {
  }

  lemma BackslashedOne(c: char)
    ensures Backslashed([c]) == if IsSpecial(c) then ['\\', c] else [c]
  {
    hide IsSpecial;
    assert [c][1..] == "";
  }

  lemma EntityIsPlain(c: char)
    requires c in "&<>"
    ensures forall i :: 0 <= i < |EncodeChar(c)| ==> !IsSpecial(EncodeChar(c)[i]) && EncodeChar(c)[i] != '@'
  {
  }

  lemma {:induction false} PassesEncode(s: string)
    ensures ReplaceChar(Backslashed(Entities(s)), '@', MENTION_BREAK) == Encode(s)
  {
    hide Entities, Backslashed, EncodeChar, ReplaceChar;
    if s == "" {
      NothingPasses();
    } else {
      var head, rest := [s[0]], s[1..];
      assert s == head + rest;
      PassesEncode(rest);
      OneCharEncodes(s[0]);
      EntitiesConcat(head, rest);
      BackslashedConcat(Entities(head), Entities(rest));
      ReplaceCharConcat(Backslashed(Entities(head)), Backslashed(Entities(rest)), '@', MENTION_BREAK);
    }
  }

  lemma NothingPasses()
    ensures ReplaceChar(Backslashed(Entities("")), '@', MENTION_BREAK) == ""
  {
  }

  // ----- the way back -----

  function Decode(s: string): string
    decreases |s|
  {
    if s == "" then ""
    else if "&amp;" <= s then "&" + Decode(s[5..])
    else if "&lt;" <= s then "<" + Decode(s[4..])
    else if "&gt;" <= s then ">" + Decode(s[4..])
    else if "&#124;" <= s then "|" + Decode(s[6..])
    else if MENTION_BREAK <= s then "@" + Decode(s[8..])
    else if s[0] == '\\' && |s| >= 2 then [s[1]] + Decode(s[2..])
    else [s[0]] + Decode(s[1..])
  }

  /** In a table a pipe is an entity instead. */
  function CellChar(c: char): string {
    if c == '|' then "&#124;" else EncodeChar(c)
  }

  function CellEncode(s: string): string {
    if s == "" then "" else CellChar(s[0]) + CellEncode(s[1..])
  }

  lemma DecodeOne(c: char, rest: string)
    ensures Decode(EncodeChar(c) + rest) == [c] + Decode(rest)
    ensures Decode(CellChar(c) + rest) == [c] + Decode(rest)
  {
    hide Decode;
    DecodeEntity(rest);
    var s := EncodeChar(c) + rest;
    if c !in "&<>@" {
      if IsSpecial(c) {
        assert s == ['\\', c] + rest;
        DecodeBackslash(c, rest);
      } else {
        assert s == [c] + rest;
        DecodePlain(c, rest);
      }
    }
  }

  lemma DecodeEntity(rest: string)
    ensures Decode("&amp;" + rest) == "&" + Decode(rest)
    ensures Decode("&lt;" + rest) == "<" + Decode(rest)
    ensures Decode("&gt;" + rest) == ">" + Decode(rest)
    ensures Decode("&#124;" + rest) == "|" + Decode(rest)
    ensures Decode(MENTION_BREAK + rest) == "@" + Decode(rest)
  {
    var a, l, g, p, m := "&amp;" + rest, "&lt;" + rest, "&gt;" + rest, "&#124;" + rest, MENTION_BREAK + rest;
    assert a[5..] == rest && l[4..] == rest && g[4..] == rest && p[6..] == rest && m[8..] == rest;
    assert l[1] == 'l' && g[1] == 'g' && p[1] == '#' && m[0] == '@';
  }

  lemma DecodeBackslash(c: char, rest: string)
    ensures Decode(['\\', c] + rest) == [c] + Decode(rest)
  {
    var s := ['\\', c] + rest;
    assert s[0] == '\\' && s[1] == c && s[2..] == rest;
  }

  lemma DecodePlain(c: char, rest: string)
    requires c !in "&@" && !IsSpecial(c)
    ensures Decode([c] + rest) == [c] + Decode(rest)
  {
    var s := [c] + rest;
    assert s[0] == c && s[1..] == rest;
    assert c != '\\' by { assert SPECIALS[0] == '\\'; }
  }

  lemma {:induction false} DecodeInvertsEncode(s: string)
    ensures Decode(Encode(s)) == s
    ensures Decode(CellEncode(s)) == s
  {
    hide EncodeChar, CellChar, Decode;
    if s == "" {
      DecodeNothing();
    } else {
      DecodeInvertsEncode(s[1..]);
      DecodeOne(s[0], Encode(s[1..]));
      DecodeOne(s[0], CellEncode(s[1..]));
      assert s == [s[0]] + s[1..];
    }
  }

  lemma DecodeNothing()
    ensures Decode("") == ""
  {
  }

  /** Text that is not cut short can be read back from its escaped form. */
  lemma EscapeIsReversible(text: string, limit: int)
    requires Fits(Encode(StripControl(text)), limit)
    ensures Decode(EscapeMarkdown(text, limit)) == StripControl(text)
  {
    hide Encode, Decode, StripControl;
    DecodeInvertsEncode(StripControl(text));
  }

  // ----- markup -----

  /** A mention break starts here; only the end of the text, or its ellipsis, cuts it short. */
  predicate BreakFrom(s: string, i: nat) {
    forall k :: 0 <= k < |MENTION_BREAK| && i + k < |s| ==>
      s[i + k] == MENTION_BREAK[k] || (i + k == |s| - 1 && s[i + k] == ELLIPSIS)
  }

  /** Every `@` is followed by a mention break, and angle brackets occur nowhere else. */
  predicate Defused(s: string) {
    forall i :: 0 <= i < |s| ==> (s[i] == '@' ==> BreakFrom(s, i)) && Bracketed(s, i)
  }

  predicate Bracketed(s: string, i: nat)
    requires i < |s|
  {
    && (s[i] == '<' ==> i >= 1 && s[i - 1] == '@')
    && (s[i] == '>' ==> i >= 7 && s[i - 7] == '@')
  }

  /** The same, with every break complete. */
  predicate Whole(s: string) {
    forall i :: 0 <= i < |s| ==> (s[i] == '@' ==> i + 8 <= |s| && s[i..i + 8] == MENTION_BREAK) && Bracketed(s, i)
  }

  lemma SlicesOfConcat(a: string, b: string, i: nat, n: nat)
    ensures i + n <= |a| ==> (a + b)[i..i + n] == a[i..i + n]
    ensures i + n <= |b| ==> (a + b)[|a| + i..|a| + i + n] == b[i..i + n]
  {
  }

  lemma BracketsOfConcat(a: string, b: string, i: nat)
    ensures i < |a| && Bracketed(a, i) ==> Bracketed(a + b, i)
    ensures i < |b| && Bracketed(b, i) ==> Bracketed(a + b, |a| + i)
  {
  }

  lemma WholeJoin(a: string, b: string)
    requires Whole(a) && Whole(b)
    ensures Whole(a + b)
  {
    hide Bracketed, MENTION_BREAK;
    var s := a + b;
    forall i | 0 <= i < |s|
      ensures (s[i] == '@' ==> i + 8 <= |s| && s[i..i + 8] == MENTION_BREAK) && Bracketed(s, i)
    {
      if i < |a| {
        assert s[i] == a[i];
        SlicesOfConcat(a, b, i, 8);
        BracketsOfConcat(a, b, i);
      } else {
        var j := i - |a|;
        assert s[i] == b[j];
        SlicesOfConcat(a, b, j, 8);
        BracketsOfConcat(a, b, j);
      }
    }
  }

  lemma CharIsWhole(c: char)
    ensures Whole(EncodeChar(c))
  {
    if c == '@' {
      assert MENTION_BREAK[0..8] == MENTION_BREAK;
    } else if IsSpecial(c) {
      assert c !in "<>";
    }
  }

  lemma {:induction false} EncodeIsWhole(s: string)
    ensures Whole(Encode(s))
  {
    hide EncodeChar, Whole;
    if s == "" {
      assert Whole("") by { NothingIsWhole(); }
    } else {
      CharIsWhole(s[0]);
      EncodeIsWhole(s[1..]);
      WholeJoin(EncodeChar(s[0]), Encode(s[1..]));
    }
  }

  lemma NothingIsWhole()
    ensures Whole("")
  {
  }

  lemma WholeIsBreak(s: string, i: nat)
    requires i + 8 <= |s| && s[i..i + 8] == MENTION_BREAK
    ensures forall k :: 0 <= k < 8 ==> s[i + k] == MENTION_BREAK[k]
  {
    forall k | 0 <= k < 8
      ensures s[i + k] == MENTION_BREAK[k]
    {
      assert s[i..i + 8][k] == MENTION_BREAK[k];
    }
  }

  lemma CutIsDefused(s: string, n: nat)
    requires Whole(s) && n <= |s|
    ensures Defused(s) && Defused(s[..n] + [ELLIPSIS])
  {
    var t := s[..n] + [ELLIPSIS];
    forall i | 0 <= i < |s|
      ensures s[i] == '@' ==> BreakFrom(s, i) && (i < n ==> BreakFrom(t, i))
    {
      if s[i] == '@' { WholeIsBreak(s, i); }
    }
    forall i | 0 <= i < |t|
      ensures (t[i] == '@' ==> BreakFrom(t, i)) && Bracketed(t, i)
    {
      if i < n { assert t[i] == s[i] && Bracketed(s, i); }
    }
  }

  /** However the text is cut, no mention forms and no tag opens: an angle bracket occurs only
      inside a mention break, which the cut may shorten but never leaves without its `@`. */
  lemma MarkupIsDefused(text: string, limit: int)
    ensures Defused(EscapeMarkdown(text, limit))
  {
    hide Encode, StripControl, Defused, Whole;
    var encoded := Encode(StripControl(text));
    EncodeIsWhole(StripControl(text));
    CutIsDefused(encoded, if Fits(encoded, limit) then 0 else limit - 1);
  }

  // ----- table cells -----

  /** `s.replace("\\|", "&#124;")`. */
  function ReplacePipe(s: string): string {
    if s == "" then ""
    else if |s| >= 2 && s[0] == '\\' && s[1] == '|' then "&#124;" + ReplacePipe(s[2..])
    else [s[0]] + ReplacePipe(s[1..])
  }

  function TableCell(text: string, limit: int): string {
    ReplacePipe(EscapeMarkdown(text, limit))
  }

  /** Every pipe stands right behind a backslash. */
  predicate Guarded(s: string) {
    forall i :: 0 <= i < |s| && s[i] == '|' ==> i > 0 && s[i - 1] == '\\'
  }

  lemma GuardedJoin(a: string, b: string)
    requires Guarded(a) && Guarded(b)
    ensures Guarded(a + b)
  {
    var s := a + b;
    forall i | 0 <= i < |s| && s[i] == '|'
      ensures i > 0 && s[i - 1] == '\\'
    {
      if i >= |a| { assert b[i - |a|] == '|'; }
    }
  }

  lemma CharIsGuarded(c: char)
    ensures Guarded(EncodeChar(c))
  {
    assert c == '|' ==> IsSpecial(c) by { assert SPECIALS[15] == '|'; }
  }

  lemma {:induction false} EncodeIsGuarded(s: string)
    ensures Guarded(Encode(s))
  {
    hide EncodeChar, Guarded;
    if s == "" {
      assert Guarded("") by { NothingIsGuarded(); }
    } else {
      CharIsGuarded(s[0]);
      EncodeIsGuarded(s[1..]);
      GuardedJoin(EncodeChar(s[0]), Encode(s[1..]));
    }
  }

  lemma NothingIsGuarded()
    ensures Guarded("")
  {
  }

  lemma {:induction false} ReplaceRemovesPipes(s: string)
    requires Guarded(s)
    ensures '|' !in ReplacePipe(s)
    decreases |s|
  {
    if s == "" {
    } else if |s| >= 2 && s[0] == '\\' && s[1] == '|' {
      assert forall i :: 0 <= i < |s[2..]| ==> s[2..][i] == s[i + 2];
      ReplaceRemovesPipes(s[2..]);
    } else {
      assert forall i :: 0 <= i < |s[1..]| ==> s[1..][i] == s[i + 1];
      ReplaceRemovesPipes(s[1..]);
    }
  }

  /** A cell never contains a raw pipe, however it was cut. */
  lemma CellHasNoPipe(text: string, limit: int)
    ensures '|' !in TableCell(text, limit)
  {
    hide Encode, StripControl, ReplacePipe;
    var encoded := Encode(StripControl(text));
    EncodeIsGuarded(StripControl(text));
    assert Guarded(Truncate(encoded, limit));
    ReplaceRemovesPipes(Truncate(encoded, limit));
  }

  lemma {:induction false} ReplaceSkips(a: string, b: string)
    requires '\\' !in a
    ensures ReplacePipe(a + b) == a + ReplacePipe(b)
    decreases |a|
  {
    if a == "" {
      assert a + b == b;
    } else {
      var s := a + b;
      assert s[0] == a[0] && s[1..] == a[1..] + b;
      ReplaceSkips(a[1..], b);
      assert a == [a[0]] + a[1..];
    }
  }

  lemma ReplaceOneMore(c: char, rest: string)
    requires c != '\\' || rest == "" || rest[0] != '|'
    ensures ReplacePipe([c] + rest) == [c] + ReplacePipe(rest)
  {
    var s := [c] + rest;
    assert s[0] == c && s[1..] == rest;
  }

  lemma ReplaceOnePipe(rest: string)
    ensures ReplacePipe(['\\', '|'] + rest) == "&#124;" + ReplacePipe(rest)
  {
    var s := ['\\', '|'] + rest;
    assert s[0] == '\\' && s[1] == '|' && s[2..] == rest;
  }

  lemma ReplaceAfterBackslash(c: char, rest: string)
    requires rest == "" || rest[0] != '|'
    ensures ReplacePipe(['\\', c] + rest) == (if c == '|' then "&#124;" else ['\\', c]) + ReplacePipe(rest)
  {
    hide ReplacePipe;
    if c == '|' {
      ReplaceOnePipe(rest);
    } else {
      TwoThenRest('\\', c, rest);
      TwoThenRest('\\', c, ReplacePipe(rest));
      ReplaceOneMore('\\', [c] + rest);
      ReplaceOneMore(c, rest);
    }
  }

  lemma TwoThenRest(a: char, b: char, rest: string)
    ensures [a, b] + rest == [a] + ([b] + rest)
  {
  }

  lemma StartsWithoutPipe(s: string)
    ensures Encode(s) == "" || Encode(s)[0] != '|'
  {
    hide Encode;
    EncodeIsGuarded(s);
  }

  lemma {:induction false} ReplaceGivesCells(s: string)
    ensures ReplacePipe(Encode(s)) == CellEncode(s)
  {
    hide ReplacePipe, EncodeChar, CellChar;
    if s == "" {
      assert ReplacePipe("") == "" by { NoPipeInNothing(); }
    } else {
      ReplaceGivesCells(s[1..]);
      StartsWithoutPipe(s[1..]);
      CellStep(s[0], Encode(s[1..]));
    }
  }

  lemma SpecialEncodes(c: char)
    requires IsSpecial(c)
    ensures EncodeChar(c) == ['\\', c] && CellChar(c) == if c == '|' then "&#124;" else ['\\', c]
  {
    assert SPECIALS[15] == '|';
  }

  lemma OrdinaryEncodes(c: char)
    requires !IsSpecial(c)
    ensures CellChar(c) == EncodeChar(c) && '\\' !in EncodeChar(c)
  {
    assert SPECIALS[15] == '|' && SPECIALS[0] == '\\';
  }

  lemma CellStep(c: char, rest: string)
    requires rest == "" || rest[0] != '|'
    ensures ReplacePipe(EncodeChar(c) + rest) == CellChar(c) + ReplacePipe(rest)
  {
    hide ReplacePipe, EncodeChar, CellChar, IsSpecial;
    if IsSpecial(c) {
      SpecialEncodes(c);
      ReplaceAfterBackslash(c, rest);
    } else {
      OrdinaryEncodes(c);
      ReplaceSkips(EncodeChar(c), rest);
    }
  }

  lemma NoPipeInNothing()
    ensures ReplacePipe("") == ""
  {
  }

  /** A cell that is not cut short can be read back too. */
  lemma CellIsReversible(text: string, limit: int)
    requires Fits(Encode(StripControl(text)), limit)
    ensures Decode(TableCell(text, limit)) == StripControl(text)
  {
    hide Encode, Decode, StripControl, ReplacePipe, CellEncode;
    DecodeInvertsEncode(StripControl(text));
    ReplaceGivesCells(StripControl(text));
  }

  // ----- the length of a cell -----

  function Pipes(s: string): nat {
    if s == "" then 0 else (if s[0] == '|' then 1 else 0) + Pipes(s[1..])
  }

  lemma {:induction false} PipesOfConcat(s: string, t: string)
    ensures Pipes(s + t) == Pipes(s) + Pipes(t)
  {
    if s == "" {
      assert s + t == t;
    } else {
      assert (s + t)[1..] == s[1..] + t;
      PipesOfConcat(s[1..], t);
    }
  }

  lemma {:induction false} PipesAreMembers(s: string)
    ensures Pipes(s) == 0 <==> '|' !in s
  {
    if s != "" {
      PipesAreMembers(s[1..]);
      assert s == [s[0]] + s[1..];
    }
  }

  lemma PipesOfChar(c: char)
    ensures Pipes(EncodeChar(c)) == if c == '|' then 1 else 0
  {
    hide Pipes;
    PipesAreMembers(EncodeChar(c));
    if c == '|' {
      assert SPECIALS[15] == '|';
      OneEscapedPipe();
    }
  }

  lemma OneEscapedPipe()
    ensures Pipes("\\|") == 1
  {
    assert "\\|"[1..] == "|" && "|"[1..] == "";
  }

  /** Escaping neither adds a pipe nor loses one. */
  lemma {:induction false} EncodeKeepsPipes(s: string)
    ensures Pipes(Encode(s)) == Pipes(s)
  {
    hide EncodeChar;
    if s != "" {
      EncodeKeepsPipes(s[1..]);
      PipesOfChar(s[0]);
      PipesOfConcat(EncodeChar(s[0]), Encode(s[1..]));
    }
  }

  lemma {:induction false} ReplaceGrows(s: string)
    requires Guarded(s)
    ensures |ReplacePipe(s)| == |s| + 4 * Pipes(s) && 2 * Pipes(s) <= |s|
    decreases |s|
  {
    if s == "" {
    } else if |s| >= 2 && s[0] == '\\' && s[1] == '|' {
      assert forall i :: 0 <= i < |s[2..]| ==> s[2..][i] == s[i + 2];
      assert s[1..][1..] == s[2..];
      ReplaceGrows(s[2..]);
    } else {
      assert forall i :: 0 <= i < |s[1..]| ==> s[1..][i] == s[i + 1];
      ReplaceGrows(s[1..]);
    }
  }

  /** A cell may outgrow its limit, since pipes are widened after the cut: it is at most three
      times as long, and stays within the limit exactly when the widened pipes still fit, which
      for text that was cut means that no pipe was kept. */
  lemma CellLengthExactly(text: string, limit: int)
    requires limit > 1
    ensures var clean, cell := StripControl(text), TableCell(text, limit);
            && |cell| <= 3 * limit
            && (|cell| <= limit <==>
                  if Fits(Encode(clean), limit) then |Encode(clean)| + 4 * Pipes(clean) <= limit
                  else '|' !in EscapeMarkdown(text, limit))
  {
    hide Encode, StripControl, ReplacePipe, Guarded, Pipes;
    var clean, escaped := StripControl(text), EscapeMarkdown(text, limit);
    EncodeIsGuarded(clean);
    CutIsGuarded(Encode(clean), limit);
    ReplaceGrows(escaped);
    EncodeKeepsPipes(clean);
    PipesAreMembers(escaped);
  }

  lemma CutIsGuarded(s: string, limit: int)
    requires Guarded(s)
    ensures Guarded(Truncate(s, limit))
  {
  }

  /** For instance, two pipes under a limit of four make a cell of twelve characters. */
  lemma TwoPipesMakeTwelve()
    ensures |TableCell("||", 4)| == 12
  {
    hide ReplacePipe, Encode, StripControl;
    assert IsClean("||") && StripControl("||") == "||" by { StripCleans("||"); }
    TwoPipesEncode();
    EncodeIsGuarded("||");
    ReplaceGrows("\\|\\|");
    EncodeKeepsPipes("||");
    assert Pipes("||") == 2 by { assert "||"[1..] == "|" && "|"[1..] == ""; }
  }

  lemma TwoPipesEncode()
    ensures Encode("||") == "\\|\\|"
  {
    assert SPECIALS[15] == '|';
    assert "||"[1..] == "|" && "|"[1..] == "";
    assert EncodeChar('|') == "\\|";
    assert Encode("|") == "\\|" + Encode("");
    assert Encode("||") == "\\|" + Encode("|");
  }
}
