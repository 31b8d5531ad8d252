/** Which characters are removed, escaped and cut, told one by one. */
module EscapingFields {
  import opened Templates
  import opened Pointers
  import opened Escaping
  import opened CodeSpans

  const ZERO_WIDTH := "\U{200B}\U{200C}\U{200D}\U{200E}\U{200F}\U{2028}\U{2029}\U{202A}\U{202B}\U{202C}\U{202D}\U{202E}\U{2060}\U{2061}\U{2062}\U{2063}\U{2064}\U{FEFF}"

  /** The control characters are the 32 lowest but tab, line feed and carriage return, and DEL. */
  lemma ControlsInFields(c: char)
    ensures IsControl(c) <==> (c as int < 32 && c != '\t' && c != '\n' && c != '\r') || c as int == 127
  {
  }

  lemma ZeroWidthsInFields(c: char)
    ensures c in ZERO_WIDTH <==> IsZeroWidth(c)
  {
    assert ZERO_WIDTH[0] == '\U{200B}' && ZERO_WIDTH[1] == '\U{200C}' && ZERO_WIDTH[2] == '\U{200D}' && ZERO_WIDTH[3] == '\U{200E}' && ZERO_WIDTH[4] == '\U{200F}';
    assert ZERO_WIDTH[5] == '\U{2028}' && ZERO_WIDTH[6] == '\U{2029}' && ZERO_WIDTH[7] == '\U{202A}' && ZERO_WIDTH[8] == '\U{202B}' && ZERO_WIDTH[9] == '\U{202C}';
    assert ZERO_WIDTH[10] == '\U{202D}' && ZERO_WIDTH[11] == '\U{202E}' && ZERO_WIDTH[12] == '\U{2060}' && ZERO_WIDTH[13] == '\U{2061}';
    assert ZERO_WIDTH[14] == '\U{2062}' && ZERO_WIDTH[15] == '\U{2063}' && ZERO_WIDTH[16] == '\U{2064}' && ZERO_WIDTH[17] == '\U{FEFF}';
  }

  lemma WithoutOne(c: char, drop: char -> bool)
    ensures Without([c], drop) == if drop(c) then "" else [c]
  {
    assert [c][1..] == "";
  }

  lemma JoinBreaksOne(c: char)
    ensures JoinBreaks([c]) == [c]
  {
    assert [c][1..] == "";
  }

  lemma NothingStaysNothing(drop: char -> bool, c: char, text: string)
    ensures Without("", drop) == "" && JoinBreaks("") == "" && ReplaceChar("", c, text) == ""
  {
  }

  /** What becomes of one character: nothing, a space, or itself. */
  lemma CharacterInFields(c: char)
    ensures StripControl([c]) == if IsControl(c) || IsZeroWidth(c) then "" else if c in "\n\r\t" then " " else [c]
  {
    hide IsControl, IsZeroWidth, Without, JoinBreaks, ReplaceChar;
    WithoutOne(c, IsControl);
    WithoutOne(c, IsZeroWidth);
    if IsControl(c) || IsZeroWidth(c) {
      NothingStaysNothing(IsZeroWidth, '\n', " ");
      NothingStaysNothing(IsZeroWidth, '\r', " ");
      NothingStaysNothing(IsZeroWidth, '\t', " ");
    } else {
      JoinBreaksOne(c);
      SpacesFor(c);
    }
  }

  lemma SpacesFor(c: char)
    ensures ReplaceChar(ReplaceChar(ReplaceChar([c], '\n', " "), '\r', " "), '\t', " ") == if c in "\n\r\t" then " " else [c]
  {
    hide ReplaceChar;
    ReplaceOne(c, '\n', " ");
    ReplaceOne(c, '\r', " ");
    ReplaceOne(c, '\t', " ");
    ReplaceOne(' ', '\r', " ");
    ReplaceOne(' ', '\t', " ");
    assert " " == [' '];
  }

  /** A line break of two characters becomes one space. */
  lemma BreakInFields()
    ensures StripControl("\r\n") == " "
  {
    hide Without, ReplaceChar, JoinBreaks;
    var s := "\r\n";
    KeptWhole();
    assert JoinBreaks(s) == " " by { BreakIsJoined(); }
    SpacesFor(' ');
    assert " " == [' '];
  }

  lemma KeptWhole()
    ensures Without("\r\n", IsControl) == "\r\n" && Without("\r\n", IsZeroWidth) == "\r\n"
  {
    var s := "\r\n";
    WithoutKeeps(s, IsControl);
    WithoutKeeps(s, IsZeroWidth);
  }

  lemma BreakIsJoined()
    ensures JoinBreaks("\r\n") == " "
  {
    assert "\r\n"[2..] == "" && JoinBreaks("") == "";
    assert " " + "" == " ";
  }

  /** The characters that Markdown gives a meaning are written behind a backslash. */
  lemma SpecialsInFields(c: char)
    ensures EncodeChar(c) == match c
                             case '&' => "&amp;"
                             case '<' => "&lt;"
                             case '>' => "&gt;"
                             case '@' => "@<!---->"
                             case _ => if c == '\\' || c == '`' || c == '*' || c == '_' || c == '{' || c == '}' || c == '[' || c == ']' || c == '('
                                          || c == ')' || c == '#' || c == '+' || c == '-' || c == '.' || c == '!' || c == '|' || c == '~'
                                       then ['\\', c] else [c]
  {
    assert SPECIALS[0] == '\\' && SPECIALS[1] == '`' && SPECIALS[2] == '*' && SPECIALS[3] == '_' && SPECIALS[4] == '{' && SPECIALS[5] == '}';
    assert SPECIALS[6] == '[' && SPECIALS[7] == ']' && SPECIALS[8] == '(' && SPECIALS[9] == ')' && SPECIALS[10] == '#' && SPECIALS[11] == '+';
    assert SPECIALS[12] == '-' && SPECIALS[13] == '.' && SPECIALS[14] == '!' && SPECIALS[15] == '|' && SPECIALS[16] == '~' && |SPECIALS| == 17;
  }

  /** A text is cut only if it is longer than a limit above one, and then to exactly that limit,
      the last character being an ellipsis. */
  lemma CutInFields(text: string, limit: int)
    ensures var cut := Truncate(text, limit);
            if limit > 1 && |text| > limit then |cut| == limit && cut == text[..limit - 1] + "\U{2026}" else cut == text
  {
  }

  /** Text with nothing to show is escaped as prose, and any other is fenced. */
  lemma BlankIsProse(text: string, limit: int)
    ensures var cleaned := Truncate(StripControl(text), limit);
            if forall i :: 0 <= i < |cleaned| ==> IsSpace(cleaned[i]) then Code(text, limit) == EscapeMarkdown(text, limit)
            else Code(text, limit) == Span(cleaned)
  {
    hide StripControl, Truncate, EscapeMarkdown, Span, IsSpace;
  }
}
