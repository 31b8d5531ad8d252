/** What `Fn::Sub` yields: the concatenation of its pieces, with the weakest of their provenances. */
module SubResults {
  import opened Templates
  import opened SubTemplates
  import opened Intrinsics

  /** A template as a row of fixed texts and names to be substituted. */
  datatype Chunk = Fixed(text: string) | Named(name: string)

  function Chunks(st: SubTemplate): (cs: seq<Chunk>) {
    match st
    case Last(text) => [Fixed(text)]
    case Unclosed(text, tail) => [Fixed(text + tail)]
    case Slot(text, name, rest) =>
      [Fixed(text), if IsEscape(name) then Fixed(EscapeText(name)) else Named(name)] + Chunks(rest)
  }

  /** A name whose value is a known scalar can be substituted. */
  predicate Substitutable(c: Chunk, local: seq<Entry>, ctx: Context, depth: nat)
    requires depth <= MAX_DEPTH
  {
    c.Named? ==>
      var piece := SlotValue(c.name, local, ctx, depth);
      piece.Known? && piece.value.Leaf?
  }

  function ChunkText(c: Chunk, local: seq<Entry>, ctx: Context, depth: nat): string
    requires depth <= MAX_DEPTH && Substitutable(c, local, ctx, depth)
  {
    match c
    case Fixed(text) => text
    case Named(name) => PieceText(SlotValue(name, local, ctx, depth).value.scalar)
  }

  ghost predicate AllSubstitutable(cs: seq<Chunk>, local: seq<Entry>, ctx: Context, depth: nat)
    requires depth <= MAX_DEPTH
  {
    forall c :: c in cs ==> Substitutable(c, local, ctx, depth)
  }

  ghost function Concatenation(cs: seq<Chunk>, local: seq<Entry>, ctx: Context, depth: nat): string
    requires depth <= MAX_DEPTH && AllSubstitutable(cs, local, ctx, depth)
  {
    if cs == [] then "" else ChunkText(cs[0], local, ctx, depth) + Concatenation(cs[1..], local, ctx, depth)
  }

  /** The provenances are exactly those of the substituted values. */
  ghost predicate Sources(ps: seq<Provenance>, cs: seq<Chunk>, local: seq<Entry>, ctx: Context, depth: nat)
    requires depth <= MAX_DEPTH && AllSubstitutable(cs, local, ctx, depth)
  {
    && (forall c :: c in cs && c.Named? ==> Substitutable(c, local, ctx, depth) && SlotValue(c.name, local, ctx, depth).provenance in ps)
    && (forall p :: p in ps ==> exists c :: c in cs && c.Named? && Substitutable(c, local, ctx, depth) && SlotValue(c.name, local, ctx, depth).provenance == p)
  }

  lemma {:induction false} PiecesConcatenate(st: SubTemplate, local: seq<Entry>, ctx: Context, depth: nat)
    requires depth <= MAX_DEPTH
    ensures SubPieces(st, local, ctx, depth).Some? <==> AllSubstitutable(Chunks(st), local, ctx, depth)
    ensures SubPieces(st, local, ctx, depth).Some? ==>
              var r := SubPieces(st, local, ctx, depth).value;
              r.text == Concatenation(Chunks(st), local, ctx, depth) && Sources(r.provenances, Chunks(st), local, ctx, depth)
    decreases st
  {
    hide SlotValue, PieceText, EscapeText, IsEscape;
    match st
    case Last(text) =>
      assert [Fixed(text)][1..] == [];
      assert SubPieces(st, local, ctx, depth).value.provenances == [];
    case Unclosed(text, tail) =>
      assert [Fixed(text + tail)][1..] == [];
    case Slot(text, name, rest) =>
      PiecesConcatenate(rest, local, ctx, depth);
      SlotConcatenates(text, name, rest, local, ctx, depth);
  }

  lemma SlotConcatenates(text: string, name: string, rest: SubTemplate, local: seq<Entry>, ctx: Context, depth: nat)
    requires depth <= MAX_DEPTH
    requires SubPieces(rest, local, ctx, depth).Some? <==> AllSubstitutable(Chunks(rest), local, ctx, depth)
    requires SubPieces(rest, local, ctx, depth).Some? ==>
               var r := SubPieces(rest, local, ctx, depth).value;
               r.text == Concatenation(Chunks(rest), local, ctx, depth) && Sources(r.provenances, Chunks(rest), local, ctx, depth)
    ensures var st := Slot(text, name, rest);
            && (SubPieces(st, local, ctx, depth).Some? <==> AllSubstitutable(Chunks(st), local, ctx, depth))
            && (SubPieces(st, local, ctx, depth).Some? ==>
                  var r := SubPieces(st, local, ctx, depth).value;
                  r.text == Concatenation(Chunks(st), local, ctx, depth) && Sources(r.provenances, Chunks(st), local, ctx, depth))
  {
    hide SlotValue, PieceText, EscapeText, IsEscape, AllSubstitutable, Concatenation, Sources;
    var st, tail := Slot(text, name, rest), Chunks(rest);
    var second := if IsEscape(name) then Fixed(EscapeText(name)) else Named(name);
    assert Chunks(st) == [Fixed(text), second] + tail;
    ChunkAhead(text, second, tail, local, ctx, depth);
    if Substitutable(second, local, ctx, depth) && AllSubstitutable(tail, local, ctx, depth) {
      SourcesOfSlot(SubPieces(rest, local, ctx, depth).value.provenances, Fixed(text), second, tail, local, ctx, depth);
    }
  }

  lemma ChunkAhead(text: string, second: Chunk, tail: seq<Chunk>, local: seq<Entry>, ctx: Context, depth: nat)
    requires depth <= MAX_DEPTH
    ensures var cs := [Fixed(text), second] + tail;
            && (AllSubstitutable(cs, local, ctx, depth)
                <==> Substitutable(second, local, ctx, depth) && AllSubstitutable(tail, local, ctx, depth))
            && (AllSubstitutable(cs, local, ctx, depth) ==>
                  Concatenation(cs, local, ctx, depth)
                  == text + ChunkText(second, local, ctx, depth) + Concatenation(tail, local, ctx, depth))
  {
    hide SlotValue, PieceText;
    var cs := [Fixed(text), second] + tail;
    assert cs[1] == second && forall i :: 0 <= i < |tail| ==> cs[i + 2] == tail[i];
    assert cs[1..] == [second] + tail && cs[1..][1..] == tail;
  }

  lemma SourcesOfSlot(ps: seq<Provenance>, first: Chunk, second: Chunk, tail: seq<Chunk>, local: seq<Entry>, ctx: Context, depth: nat)
    requires depth <= MAX_DEPTH && first.Fixed?
    requires AllSubstitutable(tail, local, ctx, depth) && AllSubstitutable([first, second] + tail, local, ctx, depth)
    requires Substitutable(second, local, ctx, depth) && Sources(ps, tail, local, ctx, depth)
    ensures Sources(if second.Named? then [SlotValue(second.name, local, ctx, depth).provenance] + ps else ps,
                    [first, second] + tail, local, ctx, depth)
  {
    hide SlotValue;
    var cs := [first, second] + tail;
    var ps' := if second.Named? then [SlotValue(second.name, local, ctx, depth).provenance] + ps else ps;
    assert second in cs;
    forall p | p in ps'
      ensures exists c :: c in cs && c.Named? && Substitutable(c, local, ctx, depth) && SlotValue(c.name, local, ctx, depth).provenance == p
    {
      if p in ps {
        var c :| c in tail && c.Named? && Substitutable(c, local, ctx, depth) && SlotValue(c.name, local, ctx, depth).provenance == p;
        assert c in cs;
      }
    }
  }

  /** A substitution is known exactly when every name in it is a known scalar.  It is then the
      concatenation of its pieces, and no substituted piece has weaker provenance than the whole,
      which takes its own from one of them. */
  lemma SubConcatenates(arg: Node, template: string, local: seq<Entry>, ctx: Context, depth: nat)
    requires depth <= MAX_DEPTH && SubParts(arg) == Some((template, local))
    ensures var cs, r := Chunks(ParseSub(template)), ResolveSub(arg, ctx, depth);
            && (r.Known? <==> AllSubstitutable(cs, local, ctx, depth))
            && (r.Known? ==>
                  && r.value == Leaf(Str(Concatenation(cs, local, ctx, depth)))
                  && (forall c :: c in cs && c.Named? ==>
                        Substitutable(c, local, ctx, depth)
                        && Precedence(SlotValue(c.name, local, ctx, depth).provenance) <= Precedence(r.provenance))
                  && (r.provenance == FromTemplate
                      || exists c :: c in cs && c.Named? && Substitutable(c, local, ctx, depth)
                                     && SlotValue(c.name, local, ctx, depth).provenance == r.provenance))
  {
    hide SlotValue, Chunks, SubPieces, ParseSub;
    PiecesConcatenate(ParseSub(template), local, ctx, depth);
  }

  /** A template without a slot resolves to itself. */
  lemma PlainTextIsItself(template: string, ctx: Context, depth: nat)
    requires depth <= MAX_DEPTH && Flat(template)
    ensures ResolveSub(Leaf(Str(template)), ctx, depth) == Known(Leaf(Str(template)), FromTemplate)
  {
    assert template[0..] == template;
  }
}
