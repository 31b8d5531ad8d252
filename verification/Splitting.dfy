/** What `Fn::Split` yields, told without the splitting itself. */
module Splitting {
  import opened Templates
  import opened Intrinsics
  import opened Spelling

  predicate OccursAt(delimiter: string, text: string, i: nat) {
    i + |delimiter| <= |text| && text[i..i + |delimiter|] == delimiter
  }

  /** The delimiter occurs nowhere in the text. */
  predicate Free(text: string, delimiter: string) {
    forall i: nat :: i <= |text| ==> !OccursAt(delimiter, text, i)
  }

  /** In the piece followed by the delimiter, the delimiter first occurs at the piece's end. */
  predicate EndsFirst(piece: string, delimiter: string) {
    forall i: nat :: i < |piece| ==> !OccursAt(delimiter, piece + delimiter, i)
  }

  /** Pieces as the leftmost cuts leave them. */
  predicate IsSplit(pieces: seq<string>, delimiter: string) {
    && pieces != []
    && Free(pieces[|pieces| - 1], delimiter)
    && forall k :: 0 <= k < |pieces| - 1 ==> EndsFirst(pieces[k], delimiter)
  }

  // ----- cutting at the first occurrence -----

  lemma SplitUnfolds(s: string, delimiter: string, from: nat)
    requires delimiter != "" && from <= |s|
    ensures SplitText(s, delimiter, from)
            == if from + |delimiter| > |s| then [s]
               else if OccursAt(delimiter, s, from) then [s[..from]] + SplitText(s[from + |delimiter|..], delimiter, 0)
               else SplitText(s, delimiter, from + 1)
  {
  }

  /** Looking for the delimiter from any place before its first occurrence. */
  lemma {:induction false} SplitFinds(s: string, delimiter: string, from: nat, at: nat)
    requires delimiter != "" && from <= at && OccursAt(delimiter, s, at)
    requires forall i: nat :: from <= i < at ==> !OccursAt(delimiter, s, i)
    ensures SplitText(s, delimiter, from) == [s[..at]] + SplitText(s[at + |delimiter|..], delimiter, 0)
    decreases at - from
  {
    hide SplitText, OccursAt;
    assert at + |delimiter| <= |s| by { OccurrenceFits(delimiter, s, at); }
    SplitUnfolds(s, delimiter, from);
    if from < at { SplitFinds(s, delimiter, from + 1, at); }
  }

  lemma OccurrenceFits(delimiter: string, text: string, i: nat)
    requires OccursAt(delimiter, text, i)
    ensures i + |delimiter| <= |text|
  {
  }

  lemma {:induction false} SplitFindsNone(s: string, delimiter: string, from: nat)
    requires delimiter != "" && from <= |s| && forall i: nat :: from <= i <= |s| ==> !OccursAt(delimiter, s, i)
    ensures SplitText(s, delimiter, from) == [s]
    decreases |s| - from
  {
    hide SplitText, OccursAt;
    SplitUnfolds(s, delimiter, from);
    if from + |delimiter| <= |s| { SplitFindsNone(s, delimiter, from + 1); }
  }

  lemma {:induction false} FirstOccurrence(s: string, delimiter: string, from: nat, some: nat) returns (at: nat)
    requires from <= some && OccursAt(delimiter, s, some)
    ensures from <= at <= some && OccursAt(delimiter, s, at) && forall i: nat :: from <= i < at ==> !OccursAt(delimiter, s, i)
    decreases some - from
  {
    hide OccursAt;
    at := from;
    if !OccursAt(delimiter, s, from) { at := FirstOccurrence(s, delimiter, from + 1, some); }
  }

  /** What occurs in the front of a text occurs in the text. */
  lemma OccursInFront(delimiter: string, front: string, rest: string, i: nat)
    ensures OccursAt(delimiter, front, i) ==> OccursAt(delimiter, front + rest, i)
  {
    var n := |delimiter|;
    if i + n <= |front| { assert (front + rest)[i..i + n] == front[i..i + n]; }
  }

  lemma FirstPieceEnds(s: string, delimiter: string, at: nat)
    requires OccursAt(delimiter, s, at) && forall i: nat :: i < at ==> !OccursAt(delimiter, s, i)
    ensures EndsFirst(s[..at], delimiter)
    ensures s == s[..at] + delimiter + s[at + |delimiter|..]
  {
    hide OccursAt;
    OccurrenceFits(delimiter, s, at);
    CutAround(s, delimiter, at);
    var front, rest := s[..at] + delimiter, s[at + |delimiter|..];
    forall i: nat | i < at
      ensures !OccursAt(delimiter, front, i)
    {
      OccursInFront(delimiter, front, rest, i);
    }
  }

  lemma CutAround(s: string, delimiter: string, at: nat)
    requires OccursAt(delimiter, s, at)
    ensures s == s[..at] + delimiter + s[at + |delimiter|..]
  {
    assert s == s[..at] + s[at..at + |delimiter|] + s[at + |delimiter|..];
  }

  // ----- splitting is what the pieces say -----

  /** The pieces join back to the text, and are the ones that leftmost cuts leave. */
  lemma {:induction false} SplitJoinsBack(s: string, delimiter: string)
    requires delimiter != ""
    ensures var pieces := SplitText(s, delimiter, 0); Intersperse(delimiter, pieces) == s && IsSplit(pieces, delimiter)
    decreases |s|
  {
    hide SplitText, OccursAt, EndsFirst, Intersperse, IsSplit;
    if some: nat :| some <= |s| && OccursAt(delimiter, s, some) {
      var at := FirstOccurrence(s, delimiter, 0, some);
      OccurrenceFits(delimiter, s, at);
      SplitFinds(s, delimiter, 0, at);
      FirstPieceEnds(s, delimiter, at);
      SplitJoinsBack(s[at + |delimiter|..], delimiter);
      OnePieceAhead(s[..at], SplitText(s[at + |delimiter|..], delimiter, 0), delimiter);
    } else {
      SplitFindsNone(s, delimiter, 0);
      OnePiece(s, delimiter);
    }
  }

  lemma OnePieceAhead(piece: string, pieces: seq<string>, delimiter: string)
    requires IsSplit(pieces, delimiter) && EndsFirst(piece, delimiter)
    ensures IsSplit([piece] + pieces, delimiter)
    ensures Intersperse(delimiter, [piece] + pieces) == piece + delimiter + Intersperse(delimiter, pieces)
  {
    hide EndsFirst, Free;
    var all := [piece] + pieces;
    assert all[1..] == pieces && all[|all| - 1] == pieces[|pieces| - 1];
    assert forall k :: 0 <= k < |pieces| ==> all[k + 1] == pieces[k];
  }

  lemma OnePiece(s: string, delimiter: string)
    requires forall i: nat :: 0 <= i <= |s| ==> !OccursAt(delimiter, s, i)
    ensures IsSplit([s], delimiter) && Intersperse(delimiter, [s]) == s
  {
  }

  /** And they are the only ones: whatever pieces join to the text and are cut leftmost. */
  lemma {:induction false} SplitIsUnique(pieces: seq<string>, delimiter: string)
    requires delimiter != "" && IsSplit(pieces, delimiter)
    ensures SplitText(Intersperse(delimiter, pieces), delimiter, 0) == pieces
    decreases |pieces|
  {
    hide SplitText, OccursAt, EndsFirst;
    var s := Intersperse(delimiter, pieces);
    if |pieces| == 1 {
      SplitFindsNone(s, delimiter, 0);
    } else {
      var first, rest := pieces[0], pieces[1..];
      assert forall k :: 0 <= k < |rest| ==> rest[k] == pieces[k + 1];
      SplitIsUnique(rest, delimiter);
      PieceIsFirst(first, delimiter, Intersperse(delimiter, rest));
      SplitFinds(s, delimiter, 0, |first|);
      assert pieces == [first] + rest;
    }
  }

  lemma PieceIsFirst(piece: string, delimiter: string, rest: string)
    requires delimiter != "" && EndsFirst(piece, delimiter)
    ensures var s, at := piece + delimiter + rest, |piece|;
            && OccursAt(delimiter, s, at) && s[..at] == piece && s[at + |delimiter|..] == rest
            && forall i: nat :: i < at ==> !OccursAt(delimiter, s, i)
  {
    var s, at, n := piece + delimiter + rest, |piece|, |delimiter|;
    assert s[at..at + n] == delimiter;
    forall i: nat | i < at
      ensures !OccursAt(delimiter, s, i)
    {
      OccursBeforeEnd(delimiter, piece + delimiter, rest, i);
    }
  }

  lemma OccursBeforeEnd(delimiter: string, front: string, rest: string, i: nat)
    requires i + |delimiter| <= |front|
    ensures OccursAt(delimiter, front + rest, i) <==> OccursAt(delimiter, front, i)
  {
    assert (front + rest)[i..i + |delimiter|] == front[i..i + |delimiter|];
  }

  /** A piece that ends at the first delimiter holds none. */
  lemma EndingIsFree(piece: string, delimiter: string)
    requires delimiter != "" && EndsFirst(piece, delimiter)
    ensures Free(piece, delimiter)
  {
    forall i: nat | i <= |piece|
      ensures !OccursAt(delimiter, piece, i)
    {
      OccursInFront(delimiter, piece, delimiter, i);
    }
  }

  // ----- the call -----

  function SplitOf(delimiter: string, source: Node): Node {
    Call("Fn::Split", List([Text(delimiter), source]))
  }

  /** The texts of a list of texts. */
  predicate AreTexts(list: Node, texts: seq<string>) {
    list.List? && |list.items| == |texts| && forall i :: 0 <= i < |texts| ==> list.items[i] == Leaf(Str(texts[i]))
  }

  /** `Fn::Split` of a known text by a delimiter that is not empty yields exactly those texts that
      join back to it, none of which holds the delimiter and all of which are cut leftmost. */
  lemma SplitIsExact(delimiter: string, source: Node, ctx: Context, depth: nat, texts: seq<string>)
    requires depth <= MAX_DEPTH && delimiter != ""
    requires var r := Resolve(source, ctx, depth + 1); r.Known? && r.value.Leaf? && r.value.scalar.Str?
    ensures var r, text := Resolve(SplitOf(delimiter, source), ctx, depth), Resolve(source, ctx, depth + 1).value.scalar.s;
            && r.Known? && r.provenance == FromTemplate
            && (AreTexts(r.value, texts) <==> Intersperse(delimiter, texts) == text && IsSplit(texts, delimiter))
            && (AreTexts(r.value, texts) ==> forall k :: 0 <= k < |texts| ==> Free(texts[k], delimiter))
  {
    hide FnOf, SplitText, Intersperse, IsSplit, Free, EndsFirst;
    var call, text := SplitOf(delimiter, source), Resolve(source, ctx, depth + 1).value.scalar.s;
    SplitCallUnfolds(delimiter, source, ctx, depth);
    SplitJoinsBack(text, delimiter);
    if IsSplit(texts, delimiter) { SplitIsUnique(texts, delimiter); }
    var pieces := SplitText(text, delimiter, 0);
    PiecesAreFree(pieces, delimiter);
    if AreTexts(TextList(pieces), texts) { assert forall i :: 0 <= i < |texts| ==> TextList(pieces).items[i] == Leaf(Str(pieces[i])); assert texts == pieces; }
  }

  lemma SplitCallUnfolds(delimiter: string, source: Node, ctx: Context, depth: nat)
    requires depth <= MAX_DEPTH && delimiter != ""
    requires var r := Resolve(source, ctx, depth + 1); r.Known? && r.value.Leaf? && r.value.scalar.Str?
    ensures Resolve(SplitOf(delimiter, source), ctx, depth)
            == Known(TextList(SplitText(Resolve(source, ctx, depth + 1).value.scalar.s, delimiter, 0)), FromTemplate)
  {
    hide FnOf, SplitText, TextList;
    TextNames();
    CallResolves("Fn::Split", List([Text(delimiter), source]), ctx, depth);
  }

  lemma PiecesAreFree(pieces: seq<string>, delimiter: string)
    requires delimiter != "" && IsSplit(pieces, delimiter)
    ensures forall k :: 0 <= k < |pieces| ==> Free(pieces[k], delimiter)
  {
    hide EndsFirst, Free;
    forall k | 0 <= k < |pieces|
      ensures Free(pieces[k], delimiter)
    {
      if k < |pieces| - 1 { EndingIsFree(pieces[k], delimiter); }
    }
  }

  /** Joining by the delimiter undoes splitting by it. */
  lemma JoinUndoesSplit(delimiter: string, source: Node, ctx: Context, depth: nat)
    requires depth + 1 < MAX_DEPTH && delimiter != ""
    requires var r := Resolve(source, ctx, depth + 2); r.Known? && r.value.Leaf? && r.value.scalar.Str?
    ensures var r := Resolve(Call("Fn::Join", List([Text(delimiter), SplitOf(delimiter, source)])), ctx, depth);
            r.Known? && r.value == Resolve(source, ctx, depth + 2).value
  {
    hide FnOf, SplitText, Intersperse, IsSplit, JoinPieces, Resolve;
    TextNames();
    var split, text := SplitOf(delimiter, source), Resolve(source, ctx, depth + 2).value.scalar.s;
    var pieces := SplitText(text, delimiter, 0);
    CallResolves("Fn::Join", List([Text(delimiter), split]), ctx, depth);
    SplitCallUnfolds(delimiter, source, ctx, depth + 1);
    SplitJoinsBack(text, delimiter);
    TextsAreJoined(pieces, ctx, depth);
    assert JoinList(split, ctx, depth) == TextList(pieces);
  }

  lemma {:induction false} TextsAreJoined(texts: seq<string>, ctx: Context, depth: nat)
    requires depth < MAX_DEPTH
    ensures JoinPieces(TextList(texts).items, ctx, depth).Some? && JoinPieces(TextList(texts).items, ctx, depth).value.texts == texts
  {
    hide PieceText;
    var items := TextList(texts).items;
    if texts != [] {
      assert items[1..] == TextList(texts[1..]).items && items[0] == Text(texts[0]);
      TextsAreJoined(texts[1..], ctx, depth);
      assert Resolve(Text(texts[0]), ctx, depth + 1) == Known(Text(texts[0]), FromTemplate);
      StringPiece(texts[0]);
      assert texts == [texts[0]] + texts[1..];
    }
  }

  lemma StringPiece(s: string)
    ensures PieceText(Str(s)) == s
  {
  }
}
