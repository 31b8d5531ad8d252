/** The grammar of an `Fn::Sub` template: literal text, `${...}` slots, an unterminated tail. */
module SubTemplates {
  import opened Templates

  datatype SubTemplate =
    | Last(text: string)
    | Unclosed(text: string, tail: string)
    | Slot(text: string, name: string, rest: SubTemplate)

  /** `t.find("${", from)`. */
  function FindOpen(t: string, from: nat): (r: Option<nat>)
    ensures r.None? ==> forall j :: from <= j < |t| - 1 ==> !OpensAt(t, j)
    ensures r.Some? ==> from <= r.value < |t| - 1 && OpensAt(t, r.value)
    ensures r.Some? ==> forall j :: from <= j < r.value ==> !OpensAt(t, j)
    decreases |t| - from
  {
    if from + 1 >= |t| then None
    else if OpensAt(t, from) then Some(from)
    else FindOpen(t, from + 1)
  }

  /** `t.find("}", from)`. */
  function FindClose(t: string, from: nat): (r: Option<nat>)
    ensures r.None? ==> forall j :: from <= j < |t| ==> t[j] != '}'
    ensures r.Some? ==> from <= r.value < |t| && t[r.value] == '}'
    ensures r.Some? ==> forall j :: from <= j < r.value ==> t[j] != '}'
    decreases |t| - from
  {
    if from >= |t| then None
    else if t[from] == '}' then Some(from)
    else FindClose(t, from + 1)
  }

  predicate OpensAt(t: string, j: int)
    requires 0 <= j < |t| - 1
  {
    t[j] == '$' && t[j + 1] == '{'
  }

  predicate Flat(t: string) {
    forall j :: 0 <= j < |t| - 1 ==> !OpensAt(t, j)
  }

  function ParseFrom(t: string, index: nat): SubTemplate
    requires index <= |t|
    decreases |t| - index
  {
    match FindOpen(t, index)
    case None => Last(t[index..])
    case Some(start) =>
      match FindClose(t, start)
      case None => Unclosed(t[index..start], t[start..])
      case Some(end) =>
        // the brace lies beyond the two characters that open the slot
        assert t[start] == '$' && t[start + 1] == '{';
        Slot(t[index..start], t[start + 2..end], ParseFrom(t, end + 1))
  }

  function ParseSub(t: string): SubTemplate {
    ParseFrom(t, 0)
  }

  function PrintSub(st: SubTemplate): string {
    match st
    case Last(text) => text
    case Unclosed(text, tail) => text + tail
    case Slot(text, name, rest) => text + ("${" + name + "}") + PrintSub(rest)
  }

  /** The segmentations the grammar allows: no literal hides a slot, no slot name runs past
      its brace, and a tail is a slot that never closes. */
  predicate Canonical(st: SubTemplate) {
    match st
    case Last(text) => Flat(text)
    case Unclosed(text, tail) =>
      Flat(text) && |tail| >= 2 && OpensAt(tail, 0) && '}' !in tail
    case Slot(text, name, rest) =>
      Flat(text) && '}' !in name && Canonical(rest)
  }

  /** Printing the segments gives back the template: no character is lost or added. */
  lemma PrintInvertsParse(t: string)
    ensures PrintSub(ParseSub(t)) == t && Canonical(ParseSub(t))
  {
    PrintInvertsParseFrom(t, 0);
  }

  lemma {:induction false} PrintInvertsParseFrom(t: string, index: nat)
    requires index <= |t|
    ensures PrintSub(ParseFrom(t, index)) == t[index..]
    ensures Canonical(ParseFrom(t, index))
    decreases |t| - index
  {
    hide *;
    var start := FindOpen(t, index);
    if start.None? {
      PrintLast(t, index);
    } else {
      var end := FindClose(t, start.value);
      if end.None? {
        PrintUnclosed(t, index);
      } else {
        PrintInvertsParseFrom(t, end.value + 1);
        PrintSlot(t, index);
      }
    }
  }

  lemma PrintLast(t: string, index: nat)
    requires index <= |t| && FindOpen(t, index).None?
    ensures PrintSub(ParseFrom(t, index)) == t[index..] && Canonical(ParseFrom(t, index))
  {
    FlatSlice(t, index, |t|, t[index..]);
  }

  lemma PrintUnclosed(t: string, index: nat)
    requires index <= |t| && FindOpen(t, index).Some? && FindClose(t, FindOpen(t, index).value).None?
    ensures PrintSub(ParseFrom(t, index)) == t[index..] && Canonical(ParseFrom(t, index))
  {
    var start := FindOpen(t, index).value;
    TailIsOpen(t, start);
    FlatSlice(t, index, start, t[index..start]);
    assert t[index..start] + t[start..] == t[index..];
  }

  lemma PrintSlot(t: string, index: nat)
    requires index <= |t| && FindOpen(t, index).Some? && FindClose(t, FindOpen(t, index).value).Some?
    ensures var end := FindClose(t, FindOpen(t, index).value).value;
            && (PrintSub(ParseFrom(t, end + 1)) == t[end + 1..] ==> PrintSub(ParseFrom(t, index)) == t[index..])
            && Canonical(ParseFrom(t, index)) == Canonical(ParseFrom(t, end + 1))
  {
    hide *;
    var start := FindOpen(t, index).value;
    var end := FindClose(t, start).value;
    SlotAhead(t, index, start, end);
    SlotText(t, index, start, end);
    FlatSlice(t, index, start, t[index..start]);
    SlotUnfolds(t[index..start], t[start + 2..end], ParseFrom(t, end + 1));
  }

  lemma SlotUnfolds(text: string, name: string, rest: SubTemplate)
    ensures PrintSub(Slot(text, name, rest)) == text + ("${" + name + "}") + PrintSub(rest)
    ensures Canonical(Slot(text, name, rest)) == (Flat(text) && '}' !in name && Canonical(rest))
  {
  }

  lemma TailIsOpen(t: string, start: nat)
    requires start < |t| - 1 && OpensAt(t, start) && FindClose(t, start).None?
    ensures OpensAt(t[start..], 0) && '}' !in t[start..]
  {
    forall j | 0 <= j < |t[start..]|
      ensures t[start..][j] != '}'
    {
      assert t[start + j] != '}';
    }
  }

  lemma SlotAhead(t: string, index: nat, start: nat, end: nat)
    requires index <= |t| && FindOpen(t, index) == Some(start) && FindClose(t, start) == Some(end)
    ensures start + 2 <= end
    ensures ParseFrom(t, index) == Slot(t[index..start], t[start + 2..end], ParseFrom(t, end + 1))
    ensures '}' !in t[start + 2..end]
  {
    assert t[start] == '$' && t[start + 1] == '{';
    var name := t[start + 2..end];
    forall j | 0 <= j < |name|
      ensures name[j] != '}'
    {
      assert t[start + 2 + j] != '}';
    }
  }

  lemma FlatSlice(t: string, lo: nat, hi: nat, text: string)
    requires lo <= hi <= |t| && text == t[lo..hi]
    requires forall j :: lo <= j < hi && j < |t| - 1 ==> !OpensAt(t, j)
    ensures Flat(text)
  {
    forall j | 0 <= j < |text| - 1
      ensures !OpensAt(text, j)
    {
      assert !OpensAt(t, lo + j);
    }
  }

  lemma SlotText(t: string, index: nat, start: nat, end: nat)
    requires index <= start && start + 2 <= end < |t| && OpensAt(t, start) && t[end] == '}'
    ensures t[index..] == t[index..start] + ("${" + t[start + 2..end] + "}") + t[end + 1..]
  {
    var slot := "${" + t[start + 2..end] + "}";
    assert |slot| == end + 1 - start;
    forall j | 0 <= j < |slot|
      ensures slot[j] == t[start..end + 1][j]
    {
      if j >= 2 && j < |slot| - 1 { assert slot[j] == t[start + 2..end][j - 2]; }
    }
    assert slot == t[start..end + 1];
    assert t[index..] == t[index..start] + t[start..end + 1] + t[end + 1..];
  }

  /** The grammar is unambiguous: the only allowed segmentation of a text is the parsed one. */
  lemma ParseInvertsPrint(st: SubTemplate)
    requires Canonical(st)
    ensures ParseSub(PrintSub(st)) == st
  {
    ParseFromInvertsPrint("", st);
    assert "" + PrintSub(st) == PrintSub(st);
  }

  lemma {:induction false} ParseFromInvertsPrint(done: string, st: SubTemplate)
    requires Canonical(st)
    ensures ParseFrom(done + PrintSub(st), |done|) == st
    decreases st
  {
    hide ParseFrom;
    match st
    case Last(text) =>
      LastFound(done, text);
    case Unclosed(text, tail) =>
      UnclosedFound(done, text, tail);
    case Slot(text, name, rest) =>
      var before := done + text + ("${" + name + "}");
      ParseFromInvertsPrint(before, rest);
      assert before + PrintSub(rest) == done + PrintSub(st);
      SlotFound(done, text, name, PrintSub(rest));
  }

  lemma OpenIs(t: string, from: nat, at: nat)
    requires from <= at < |t| - 1 && OpensAt(t, at)
    requires forall j :: from <= j < at ==> !OpensAt(t, j)
    ensures FindOpen(t, from) == Some(at)
  {
  }

  lemma CloseIs(t: string, from: nat, at: nat)
    requires from <= at < |t| && t[at] == '}'
    requires forall j :: from <= j < at ==> t[j] != '}'
    ensures FindClose(t, from) == Some(at)
  {
  }

  lemma LastFound(done: string, text: string)
    requires Flat(text)
    ensures ParseFrom(done + text, |done|) == Last(text)
  {
    var t := done + text;
    NoneOpenBefore(done, text, "");
    assert text + "" == text;
    assert t[|done|..] == text;
  }

  lemma UnclosedFound(done: string, text: string, tail: string)
    requires Flat(text) && |tail| >= 2 && OpensAt(tail, 0) && '}' !in tail
    ensures ParseFrom(done + (text + tail), |done|) == Unclosed(text, tail)
  {
    hide FindOpen, FindClose, ParseFrom;
    var t, start := done + (text + tail), |done| + |text|;
    NoneOpenBefore(done, text, tail);
    assert OpensAt(t, start);
    OpenIs(t, |done|, start);
    assert t[|done|..start] == text && t[start..] == tail;
    assert forall j :: start <= j < |t| ==> t[j] == tail[j - start];
    assert FindClose(t, start).None?;
    UnclosedParsed(t, |done|, start);
  }

  lemma UnclosedParsed(t: string, from: nat, start: nat)
    requires from <= start < |t| && FindOpen(t, from) == Some(start) && FindClose(t, start).None?
    ensures ParseFrom(t, from) == Unclosed(t[from..start], t[start..])
  {
  }

  lemma NoneOpenBefore(done: string, text: string, tail: string)
    requires Flat(text) && (tail == "" || tail[0] == '$')
    ensures var t := done + (text + tail);
            forall j :: |done| <= j < |done| + |text| && j < |t| - 1 ==> !OpensAt(t, j)
  {
    var t := done + (text + tail);
    forall j | |done| <= j < |done| + |text| && j < |t| - 1
      ensures !OpensAt(t, j)
    {
      if j + 1 < |done| + |text| { assert !OpensAt(text, j - |done|); }
    }
  }

  lemma SlotFound(done: string, text: string, name: string, after: string)
    requires Flat(text) && '}' !in name
    ensures var t, end := done + (text + ("${" + name + "}") + after), |done| + |text| + 3 + |name|;
            end <= |t| && ParseFrom(t, |done|) == Slot(text, name, ParseFrom(t, end))
  {
    hide FindOpen, FindClose, ParseFrom, Flat;
    var slot := "${" + name + "}";
    var t := done + (text + slot + after);
    var start := |done| + |text|;
    var end := start + 2 + |name|;
    SlotPlace(done + text, name, after);
    assert t == done + text + (slot + after);
    NoneOpenBefore(done, text, slot + after);
    assert t == done + (text + (slot + after));
    assert t[|done|..start] == text;
    OpenIs(t, |done|, start);
    CloseIs(t, start, end);
    SlotParsed(t, |done|, start, end);
  }

  lemma SlotParsed(t: string, from: nat, start: nat, end: nat)
    requires from <= start && start + 2 <= end < |t|
    requires FindOpen(t, from) == Some(start) && FindClose(t, start) == Some(end)
    ensures ParseFrom(t, from) == Slot(t[from..start], t[start + 2..end], ParseFrom(t, end + 1))
  {
  }

  lemma SlotPlace(before: string, name: string, after: string)
    requires '}' !in name
    ensures var t, start := before + (("${" + name + "}") + after), |before|;
            var end := start + 2 + |name|;
            && end < |t|
            && OpensAt(t, start)
            && t[end] == '}'
            && t[start + 2..end] == name
            && forall j :: start <= j < end ==> t[j] != '}'
  {
    var slot := "${" + name + "}";
    var t, start := before + (slot + after), |before|;
    var end := start + 2 + |name|;
    assert forall j :: start <= j <= end ==> t[j] == slot[j - start];
    assert slot[0] == '$' && slot[1] == '{' && slot[|slot| - 1] == '}';
    forall j | start + 2 <= j < end
      ensures t[j] == name[j - start - 2]
    {
      assert slot[j - start] == name[j - start - 2];
    }
  }
}
