/** How scalars are written, and how deep resolution goes, told without the writing itself. */
module Rendering {
  import opened Templates
  import opened Intrinsics
  import opened Guards

  // ----- numbers -----

  /** The number a row of decimal digits stands for. */
  function ValueOf(digits: string): int {
    if digits == "" then 0
    else ValueOf(digits[..|digits| - 1]) * 10 + (digits[|digits| - 1] as int - '0' as int)
  }

  predicate AreDigits(s: string) {
    s != "" && forall i :: 0 <= i < |s| ==> '0' <= s[i] <= '9'
  }

  lemma DigitIs(d: nat)
    requires d < 10
    ensures |DigitText(d)| == 1 && DigitText(d)[0] as int == '0' as int + d
  {
  }

  /** A number is written in decimal digits that stand for it, without a leading zero. */
  lemma {:induction false} NatTextReadsBack(n: nat)
    ensures AreDigits(NatText(n)) && ValueOf(NatText(n)) == n
    ensures n > 0 ==> NatText(n)[0] != '0'
    decreases n
  {
    hide DigitText;
    DigitIs(n % 10);
    var text, last := NatText(n), DigitText(n % 10);
    if n >= 10 {
      NatTextReadsBack(n / 10);
      var front := NatText(n / 10);
      assert text == front + last && text[..|text| - 1] == front && text[|text| - 1] == last[0];
    } else {
      assert text == last && text[..0] == "";
    }
  }

  /** An integer is written as its digits, behind a minus sign when it is negative. */
  lemma IntTextReadsBack(n: int)
    ensures n >= 0 ==> AreDigits(IntText(n)) && ValueOf(IntText(n)) == n
    ensures n < 0 ==> IntText(n)[0] == '-' && AreDigits(IntText(n)[1..]) && ValueOf(IntText(n)[1..]) == -n
  {
    hide NatText, ValueOf;
    if n >= 0 { NatTextReadsBack(n); } else { NatTextReadsBack(-n); }
  }

  // ----- comparisons and joins of single scalars -----

  /** What a literal scalar compares equal to. */
  lemma ScalarIsWritten(s: Scalar, text: string, ctx: Context)
    ensures EvaluateExpression(EqualsOf(Leaf(s), Leaf(Str(text))), ctx, 0, {}) == Yes
            <==> match s
                 case Null => text == "None"
                 case Bool(b) => text == if b then "True" else "False"
                 case Int(n) => text == IntText(n)
                 case Float(_, written) => text == written
                 case Str(t) => text == t
  {
    hide FnOf, EvaluateExpression, IntText;
    EqualsIsEvaluated(Leaf(s), Leaf(Str(text)), ctx);
    assert Resolve(Leaf(s), ctx, 1) == Known(Leaf(s), FromTemplate) && Resolve(Leaf(Str(text)), ctx, 1) == Known(Leaf(Str(text)), FromTemplate);
  }

  /** A list or a mapping compares equal to the one string that the host language renders it as. */
  lemma StructureIsWritten(n: Node, text: string, ctx: Context)
    requires !n.Leaf? && !IsCall(n)
    ensures EvaluateExpression(EqualsOf(n, Leaf(Str(text))), ctx, 0, {}) == Yes <==> text == ctx.host.textOf(n)
  {
    hide FnOf, EvaluateExpression;
    EqualsIsEvaluated(n, Leaf(Str(text)), ctx);
    assert Resolve(n, ctx, 1) == Known(n, FromTemplate) && Resolve(Leaf(Str(text)), ctx, 1) == Known(Leaf(Str(text)), FromTemplate);
  }

  lemma EqualsIsEvaluated(left: Node, right: Node, ctx: Context)
    ensures EvaluateExpression(EqualsOf(left, right), ctx, 0, {}) == CompareResolved(Resolve(left, ctx, 1), Resolve(right, ctx, 1), ctx.host)
  {
    hide FnOf, Resolve;
    CallNames();
    var e := EqualsOf(left, right);
    assert IsCall(e) && Callee(e) == EqualsFn && Arg(e) == List([left, right]);
    assert EvaluateExpression(e, ctx, 0, {}) == EvaluateEquals(List([left, right]), ctx, 1);
  }

  /** In a join a null leaves a gap, and everything else stands as it is compared. */
  lemma PieceIsWritten(s: Scalar, ctx: Context)
    ensures var r := Resolve(JoinOf("", [Leaf(s)]), ctx, 0);
            r.Known? && r.value == Leaf(Str(match s
                                            case Null => ""
                                            case Bool(b) => if b then "True" else "False"
                                            case Int(n) => IntText(n)
                                            case Float(_, written) => written
                                            case Str(t) => t))
  {
    hide FnOf, IntText, Resolve, JoinPieces;
    JoinResolves("", [Leaf(s)], ctx, 0);
    OnePiece(s, ctx);
    assert Intersperse("", [PieceText(s)]) == PieceText(s);
  }

  lemma OnePiece(s: Scalar, ctx: Context)
    ensures JoinPieces([Leaf(s)], ctx, 0).Some? && JoinPieces([Leaf(s)], ctx, 0).value.texts == [PieceText(s)]
  {
    hide PieceText;
    assert [Leaf(s)][1..] == [] && JoinPieces([], ctx, 0) == Some(Pieces([], []));
    assert Resolve(Leaf(s), ctx, 1) == Known(Leaf(s), FromTemplate);
    assert [PieceText(s)] + [] == [PieceText(s)];
  }

  /** The delimiter stands between pieces, and nowhere else. */
  lemma {:induction false} DelimitersStandBetween(delimiter: string, pieces: seq<string>, more: seq<string>)
    ensures Intersperse(delimiter, pieces + more)
            == if pieces == [] then Intersperse(delimiter, more)
               else if more == [] then Intersperse(delimiter, pieces)
               else Intersperse(delimiter, pieces) + delimiter + Intersperse(delimiter, more)
    ensures |pieces| == 1 ==> Intersperse(delimiter, pieces) == pieces[0]
    decreases |pieces|
  {
    if pieces == [] {
      assert pieces + more == more;
    } else if more == [] {
      assert pieces + more == pieces;
    } else {
      assert (pieces + more)[1..] == pieces[1..] + more;
      DelimitersStandBetween(delimiter, pieces[1..], more);
      if |pieces| == 1 { assert pieces[1..] + more == more; }
    }
  }

  // ----- depth -----

  /** Joins inside joins, `k` of them. */
  function Nested(s: string, k: nat): Node {
    if k == 0 then Leaf(Str(s)) else JoinOf("", [Nested(s, k - 1)])
  }

  lemma {:induction false} NestedResolves(s: string, k: nat, ctx: Context, depth: nat)
    requires depth <= 60
    ensures var r := Resolve(Nested(s, k), ctx, depth);
            && (depth + k <= 60 ==> r.Known? && r.value == Leaf(Str(s)))
            && (depth + k > 60 ==> !r.Known?)
    decreases k
  {
    hide FnOf, JoinPieces, Resolve, Intersperse;
    if k == 0 {
      LeafResolves(s, ctx, depth);
    } else if depth == 60 {
      JoinAtTheLimit(Nested(s, k - 1), ctx);
    } else {
      NestedResolves(s, k - 1, ctx, depth + 1);
      JoinResolves("", [Nested(s, k - 1)], ctx, depth);
      JoinOfOne(Nested(s, k - 1), ctx, depth);
      OneText(s);
    }
  }

  lemma LeafResolves(s: string, ctx: Context, depth: nat)
    requires depth <= 60
    ensures Resolve(Leaf(Str(s)), ctx, depth) == Known(Leaf(Str(s)), FromTemplate)
  {
  }

  lemma OneText(s: string)
    ensures Intersperse("", [s]) == s
  {
  }

  lemma JoinOfOne(n: Node, ctx: Context, depth: nat)
    requires depth <= MAX_DEPTH
    ensures var r, pieces := Resolve(n, ctx, depth + 1), JoinPieces([n], ctx, depth);
            && (pieces.Some? <==> r.Known? && r.value.Leaf?)
            && (pieces.Some? ==> pieces.value.texts == [PieceText(r.value.scalar)])
  {
    hide Resolve, PieceText;
    assert [n][1..] == [] && JoinPieces([], ctx, depth) == Some(Pieces([], []));
    var r := Resolve(n, ctx, depth + 1);
    if r.Known? && r.value.Leaf? { assert [PieceText(r.value.scalar)] + [] == [PieceText(r.value.scalar)]; }
  }

  lemma JoinAtTheLimit(n: Node, ctx: Context)
    ensures !Resolve(JoinOf("", [n]), ctx, 60).Known?
  {
    hide FnOf, JoinPieces;
    JoinName();
    var join := JoinOf("", [n]);
    assert IsCall(join) && Callee(join) == JoinFn && Arg(join).items == [Leaf(Str("")), List([n])];
    assert Resolve(List([n]), ctx, 61).Unknown?;
    assert JoinList(List([n]), ctx, 60) == List([n]);
    JoinOfOne(n, ctx, 60);
    assert Resolve(n, ctx, 61).Unknown?;
    assert Resolve(join, ctx, 60) == ResolveCall(join, ctx, 60) == ResolveJoin(Arg(join), ctx, 60);
  }

  /** Sixty calls inside one another are resolved, sixty-one are not. */
  lemma SixtyLevels(s: string, k: nat, ctx: Context)
    ensures Resolve(Nested(s, k), ctx, 0).Known? <==> k <= 60
  {
    NestedResolves(s, k, ctx, 0);
  }

  // ----- blank text -----

  const BLANKS := "\t\n\U{B}\U{C}\r\U{1C}\U{1D}\U{1E}\U{1F} \U{85}\U{A0}\U{1680}\U{2000}\U{2001}\U{2002}\U{2003}\U{2004}\U{2005}\U{2006}\U{2007}\U{2008}\U{2009}\U{200A}\U{2028}\U{2029}\U{202F}\U{205F}\U{3000}"

  /** The characters that `str.strip` removes, one by one. */
  lemma SpacesInFields(c: char)
    ensures c in BLANKS ==> IsSpace(c)
    ensures IsSpace(c) ==> c in BLANKS
  {
    if IsSpace(c) { SpaceIsListed(c); }
  }

  lemma SpaceIsListed(c: char)
    requires IsSpace(c)
    ensures c in BLANKS
  {
    assert BLANKS[0] == '\t' && BLANKS[1] == '\n' && BLANKS[2] == '\U{B}' && BLANKS[3] == '\U{C}' && BLANKS[4] == '\r';
    assert BLANKS[5] == '\U{1C}' && BLANKS[6] == '\U{1D}' && BLANKS[7] == '\U{1E}' && BLANKS[8] == '\U{1F}' && BLANKS[9] == ' ';
    assert BLANKS[10] == '\U{85}' && BLANKS[11] == '\U{A0}' && BLANKS[12] == '\U{1680}' && BLANKS[13] == '\U{2000}' && BLANKS[14] == '\U{2001}';
    assert BLANKS[15] == '\U{2002}' && BLANKS[16] == '\U{2003}' && BLANKS[17] == '\U{2004}' && BLANKS[18] == '\U{2005}' && BLANKS[19] == '\U{2006}';
    assert BLANKS[20] == '\U{2007}' && BLANKS[21] == '\U{2008}' && BLANKS[22] == '\U{2009}' && BLANKS[23] == '\U{200A}' && BLANKS[24] == '\U{2028}';
    assert BLANKS[25] == '\U{2029}' && BLANKS[26] == '\U{202F}' && BLANKS[27] == '\U{205F}' && BLANKS[28] == '\U{3000}';
  }
}
