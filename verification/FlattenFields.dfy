/** What each flattened property says, told on its own fields. */
module FlattenFields {
  import opened Templates
  import opened Intrinsics
  import opened Ordering
  import opened Pointers
  import opened Resources
  import opened Chains
  import opened Flatten
  import opened FlattenLaws

  /** The template term at a place of the resolved tree. */
  ghost function NodeAt(n: Node, ctx: Context, tokens: seq<string>): Option<Node>
    decreases |tokens|
  {
    var r := Resolve(n, ctx, 0);
    if tokens == [] then Some(n)
    else if !r.Known? then None
    else
      match ChildAt(r.value, tokens[0])
      case None => None
      case Some(child) => NodeAt(child, ctx, tokens[1..])
  }

  /** A property records what its term resolved to, with the evidence for it; a fraction is
      recorded as it is written. */
  ghost predicate Records(value: PropertyValue, n: Node, ctx: Context) {
    match Resolve(n, ctx, 0)
    case Known(v, provenance) =>
      && v.Leaf?
      && value == Resolved(match v.scalar case Float(_, written) => Str(written) case other => other, provenance)
    case Reference(id, attribute) => value == ResourceRef(id, attribute)
    case Unknown(kind, scenarios) => value == Unresolved(kind, ctx.host.textOf(n), scenarios)
    case Omitted => false
  }

  lemma LeafRecords(n: Node, ctx: Context, value: PropertyValue)
    requires ToPropertyValue(Resolve(n, ctx, 0), ctx.host.textOf(n)) == Some(value)
    ensures Records(value, n, ctx)
  {
    hide Resolve;
  }

  lemma {:induction false} ValueRecords(n: Node, ctx: Context, tokens: seq<string>, depth: nat)
    requires ValueAt(n, ctx, tokens, depth).Some?
    ensures depth + |tokens| <= 60
    ensures NodeAt(n, ctx, tokens).Some? && Records(ValueAt(n, ctx, tokens, depth).value, NodeAt(n, ctx, tokens).value, ctx)
    decreases |tokens|
  {
    hide Resolve, ChildAt, Records, ToPropertyValue;
    var r := Resolve(n, ctx, 0);
    if IsInner(r) {
      ValueRecords(ChildAt(r.value, tokens[0]).value, ctx, tokens[1..], depth + 1);
    } else {
      LeafRecords(n, ctx, ValueAt(n, ctx, tokens, depth).value);
    }
  }

  /** Every flattened property, however many there are, records the term at its pointer, which lies
      at most sixty levels down. */
  lemma EveryPropertyRecords(properties: Node, ctx: Context, tokens: seq<string>, value: PropertyValue)
    requires Keyed(properties) && Keyed(ctx.mappings) && tokens != []
    requires Item(PropertyPath(tokens), value) in Flattened(properties, ctx, [], [], 0)
    ensures |tokens| <= 60 && NodeAt(properties, ctx, tokens).Some? && Records(value, NodeAt(properties, ctx, tokens).value, ctx)
  {
    hide Leaves, Keyed, Flattened, PropertyPath, ValueAt, Records, NodeAt;
    FlattenWritesEachLeafOnce(properties, ctx);
    var leaves := Leaves(properties, ctx, [], 0);
    var kept := if |leaves| <= MAX_PROPERTIES then leaves else leaves[..MAX_PROPERTIES];
    var i :| 0 <= i < |kept| && Items(kept)[i] == Item(PropertyPath(tokens), value);
    assert kept[i] in leaves;
    PropertyPathIsInjective(kept[i].tokens, tokens);
    assert kept[i] == Placed(tokens, value);
    assert [] + tokens == tokens;
    LeavesAreLookups(properties, ctx, [], tokens, value, 0);
    ValueRecords(properties, ctx, tokens, 0);
  }

  /** So no property is a binary fraction. */
  lemma NoFractions(properties: Node, ctx: Context, tokens: seq<string>, value: PropertyValue)
    requires Keyed(properties) && Keyed(ctx.mappings) && tokens != []
    requires Item(PropertyPath(tokens), value) in Flattened(properties, ctx, [], [], 0)
    ensures value.Resolved? ==> !value.value.Float?
  {
    hide Keyed, Flattened, PropertyPath, Resolve, NodeAt;
    EveryPropertyRecords(properties, ctx, tokens, value);
  }

  /** The walk visits the entries of a mapping in order of their keys. */
  lemma EntriesAreVisitedInOrder(entries: seq<Entry>, i: nat, j: nat)
    requires i < j < |Children(Dict(entries))|
    ensures TextAtMost(Children(Dict(entries))[i].token, Children(Dict(entries))[j].token)
  {
    hide SortBy, TextAtMost;
    TextRanks();
    assert Ranks(EntryAtMost);
    SortSorts(entries, EntryAtMost);
    var sorted := SortBy(entries, EntryAtMost);
    assert EntryAtMost(sorted[i], sorted[j]);
  }

  // ----- the limits -----

  /** Mappings inside mappings, `k` of them. */
  function Nest(n: Node, k: nat): Node {
    if k == 0 then n else Dict([Entry("Nested", Nest(n, k - 1))])
  }

  lemma NestIsNoCall(n: Node, k: nat)
    requires k > 0
    ensures !IsCall(Nest(n, k))
    ensures Children(Nest(n, k)) == [Child("Nested", Nest(n, k - 1))]
  {
    assert "Nested"[0] == 'N' && "Ref"[0] == 'R' && "Condition"[0] == 'C';
    assert |"Nested"| == 6 && "Fn::If"[0] == 'F' && "Fn::Or"[0] == 'F';
    OneEntry(Entry("Nested", Nest(n, k - 1)));
  }

  lemma OneEntry(e: Entry)
    ensures Children(Dict([e])) == [Child(e.key, e.value)]
  {
    assert [e][1..] == [];
    assert SortBy([e], EntryAtMost) == [e];
  }

  lemma {:induction false} NestIsSilent(s: string, k: nat, ctx: Context, depth: nat)
    ensures Silent(Nest(Leaf(Str(s)), k), ctx, depth) <==> depth + k > 60
    decreases k
  {
    hide Children, IsCall, FnOf;
    var n := Nest(Leaf(Str(s)), k);
    if k == 0 {
      LeafEnds(s, ctx);
    } else {
      NestIsNoCall(Leaf(Str(s)), k);
      NestIsSilent(s, k - 1, ctx, depth + 1);
      DataEnds(n, ctx);
      assert forall c :: c in Children(n) <==> c == Child("Nested", Nest(Leaf(Str(s)), k - 1));
    }
  }

  lemma LeafEnds(s: string, ctx: Context)
    ensures Ends(Leaf(Str(s)), ctx, 0) == Taken(Leaf(Str(s))) && !IsCall(Leaf(Str(s)))
  {
  }

  lemma DataEnds(n: Node, ctx: Context)
    requires !IsCall(n)
    ensures Ends(n, ctx, 0) == Taken(n)
  {
  }

  /** A value below sixty mappings is written, one below sixty-one is not. */
  lemma SixtyMappings(s: string, k: nat, ctx: Context)
    ensures Leaves(Nest(Leaf(Str(s)), k), ctx, ["Deep"], 0) == [] <==> k > 60
  {
    hide Leaves, Silent;
    NoLeavesExactly(Nest(Leaf(Str(s)), k), ctx, ["Deep"], 0);
    NestIsSilent(s, k, ctx, 0);
  }

  /** Of more than five thousand leaves the first five thousand are written. */
  lemma FiveThousandAreWritten(properties: Node, ctx: Context)
    requires Keyed(properties) && Keyed(ctx.mappings)
    ensures var n := |Leaves(properties, ctx, [], 0)|; |Flattened(properties, ctx, [], [], 0)| == if n <= 5000 then n else 5000
  {
    hide Leaves, Keyed, Flattened, DistinctPaths;
    FlattenWritesEachLeafOnce(properties, ctx);
  }
}
