/** What flattening writes: every leaf of the tree, once, at its own pointer. */
module FlattenLaws {
  import opened Templates
  import opened Intrinsics
  import opened Pointers
  import opened Resources
  import opened Flatten
  import opened Chains

  /** A leaf of the property tree and the tokens that lead to it. */
  datatype Placed = Placed(tokens: seq<string>, value: PropertyValue)

  function Leaves(n: Node, ctx: Context, tokens: seq<string>, depth: nat): seq<Placed>
    decreases Left(depth), 0
  {
    if depth > MAX_WALK_DEPTH then []
    else
      var r := Resolve(n, ctx, 0);
      if IsInner(r) then LeavesOfEach(Children(r.value), ctx, tokens, depth + 1)
      else
        match ToPropertyValue(r, ctx.host.textOf(n))
        case None => []
        case Some(leaf) => if tokens == [] then [] else [Placed(tokens, leaf)]
  }

  function LeavesOfEach(children: seq<Child>, ctx: Context, tokens: seq<string>, depth: nat): seq<Placed>
    decreases Left(depth), 1, |children|
  {
    if children == [] then []
    else
      Leaves(children[0].node, ctx, tokens + [children[0].token], depth)
      + LeavesOfEach(children[1..], ctx, tokens, depth)
  }

  function Items(leaves: seq<Placed>): seq<Item> {
    seq(|leaves|, i requires 0 <= i < |leaves| => Item(PropertyPath(leaves[i].tokens), leaves[i].value))
  }

  /** As many of the leaves as still fit under the cap. */
  function Fitting(items: seq<Item>, leaves: seq<Placed>): seq<Item>
    requires |items| <= MAX_PROPERTIES
  {
    var room := MAX_PROPERTIES - |items|;
    items + Items(if |leaves| <= room then leaves else leaves[..room])
  }

  /** Follow tokens down the resolved tree; a reference semantics that never flattens. */
  ghost function ValueAt(n: Node, ctx: Context, tokens: seq<string>, depth: nat): Option<PropertyValue>
    decreases |tokens|
  {
    if depth > MAX_WALK_DEPTH then None
    else
      var r := Resolve(n, ctx, 0);
      if !IsInner(r) then
        if tokens == [] then ToPropertyValue(r, ctx.host.textOf(n)) else None
      else if tokens == [] then None
      else
        match ChildAt(r.value, tokens[0])
        case None => None
        case Some(child) => ValueAt(child, ctx, tokens[1..], depth + 1)
  }

  // ----- where leaves lie -----

  lemma {:induction false} LeavesLieBelow(n: Node, ctx: Context, tokens: seq<string>, depth: nat)
    ensures forall l :: l in Leaves(n, ctx, tokens, depth) ==> tokens <= l.tokens && l.tokens != []
    decreases Left(depth), 0
  {
    hide Resolve, Children;
    if depth <= MAX_WALK_DEPTH {
      var r := Resolve(n, ctx, 0);
      if IsInner(r) { LeavesOfEachLieBelow(Children(r.value), ctx, tokens, depth + 1); }
    }
  }

  lemma {:induction false} LeavesOfEachLieBelow(children: seq<Child>, ctx: Context, tokens: seq<string>, depth: nat)
    ensures forall l :: l in LeavesOfEach(children, ctx, tokens, depth) ==>
              exists c :: c in children && tokens + [c.token] <= l.tokens
    ensures forall l :: l in LeavesOfEach(children, ctx, tokens, depth) ==> tokens <= l.tokens && l.tokens != []
    decreases Left(depth), 1, |children|
  {
    hide Leaves;
    if children != [] {
      LeavesLieBelow(children[0].node, ctx, tokens + [children[0].token], depth);
      LeavesOfEachLieBelow(children[1..], ctx, tokens, depth);
      forall l | l in LeavesOfEach(children, ctx, tokens, depth)
        ensures exists c :: c in children && tokens + [c.token] <= l.tokens
      {
        if l in Leaves(children[0].node, ctx, tokens + [children[0].token], depth) {
          assert children[0] in children;
        } else {
          var c :| c in children[1..] && tokens + [c.token] <= l.tokens;
          assert c in children;
        }
      }
    }
  }

  // ----- flattening appends the leaves -----

  /** Nothing has been written at or below a place. */
  ghost predicate Untouched(items: seq<Item>, tokens: seq<string>) {
    forall item :: item in items ==> !AtOrBelow(item.path, PropertyPath(tokens))
  }

  lemma {:induction false} FlattenAppends(n: Node, ctx: Context, tokens: seq<string>, items: seq<Item>, depth: nat)
    requires Keyed(n) && Keyed(ctx.mappings)
    requires |items| <= MAX_PROPERTIES && Untouched(items, tokens)
    ensures Flattened(n, ctx, tokens, items, depth) == Fitting(items, Leaves(n, ctx, tokens, depth))
    decreases Left(depth), 0
  {
    hide Resolve, Children, Keyed, PropertyPath, AtOrBelow, Put, Untouched;
    if depth > MAX_WALK_DEPTH {
    } else {
      var r := Resolve(n, ctx, 0);
      if IsInner(r) {
        ResolveKeepsKeys(n, ctx, 0);
        ChildrenAreLookups(r.value);
        UntouchedBelow(items, tokens, Children(r.value));
        FlattenEachAppends(Children(r.value), ctx, tokens, items, depth + 1);
        if |items| == MAX_PROPERTIES { FullStaysFull(items, Leaves(n, ctx, tokens, depth)); }
      } else if leaf :| ToPropertyValue(r, ctx.host.textOf(n)) == Some(leaf) && tokens != [] {
        NothingThere(items, tokens);
        PutPaths(items, PropertyPath(tokens), leaf);
        if |items| == MAX_PROPERTIES { FullStaysFull(items, Leaves(n, ctx, tokens, depth)); }
      }
    }
  }

  lemma FullStaysFull(items: seq<Item>, leaves: seq<Placed>)
    requires |items| == MAX_PROPERTIES
    ensures Fitting(items, leaves) == items
  {
  }

  lemma NothingThere(items: seq<Item>, tokens: seq<string>)
    requires Untouched(items, tokens)
    ensures forall item :: item in items ==> item.path != PropertyPath(tokens)
  {
  }

  lemma UntouchedBelow(items: seq<Item>, tokens: seq<string>, children: seq<Child>)
    requires Untouched(items, tokens)
    ensures forall c :: c in children ==> Untouched(items, tokens + [c.token])
  {
    hide AtOrBelow, PropertyPath;
    forall c, item | c in children && item in items
      ensures !AtOrBelow(item.path, PropertyPath(tokens + [c.token]))
    {
      BelowIsBelow(item.path, tokens, c.token);
    }
  }

  lemma BelowIsBelow(path: string, tokens: seq<string>, token: string)
    requires !AtOrBelow(path, PropertyPath(tokens))
    ensures !AtOrBelow(path, PropertyPath(tokens + [token]))
  {
    PathOfConcat(tokens, [token]);
    var upper, lower := PropertyPath(tokens), PropertyPath(tokens + [token]);
    assert (upper + "/") <= lower;
    if AtOrBelow(path, lower) { assert lower <= path; }
  }

  /** What one child wrote does not touch the places of the others. */
  lemma SiblingsAreApart(items: seq<Item>, leaves: seq<Placed>, tokens: seq<string>, mine: string, other: string)
    requires |items| <= MAX_PROPERTIES && mine != other && Untouched(items, tokens + [other])
    requires forall l :: l in leaves ==> tokens + [mine] <= l.tokens
    ensures Untouched(Fitting(items, leaves), tokens + [other])
  {
    hide AtOrBelow, PropertyPath;
    var n := |tokens|;
    forall item | item in Fitting(items, leaves)
      ensures !AtOrBelow(item.path, PropertyPath(tokens + [other]))
    {
      if item !in items {
        var l :| l in leaves && item.path == PropertyPath(l.tokens);
        AtOrBelowIsTokenPrefix(l.tokens, tokens + [other]);
        assert (tokens + [mine])[n] == mine && (tokens + [other])[n] == other;
      }
    }
  }

  lemma {:induction false} FlattenEachAppends(children: seq<Child>, ctx: Context, tokens: seq<string>, items: seq<Item>, depth: nat)
    requires Keyed(ctx.mappings) && DistinctTokens(children) && (forall c :: c in children ==> Keyed(c.node))
    requires |items| <= MAX_PROPERTIES && (forall c :: c in children ==> Untouched(items, tokens + [c.token]))
    ensures FlattenedEach(children, ctx, tokens, items, depth) == Fitting(items, LeavesOfEach(children, ctx, tokens, depth))
    decreases Left(depth), 1, |children|
  {
    hide Flattened, Leaves, Keyed, Untouched, Items;
    if children != [] {
      var first, rest := children[0], children[1..];
      var mine := Leaves(first.node, ctx, tokens + [first.token], depth);
      FlattenAppends(first.node, ctx, tokens + [first.token], items, depth);
      LeavesLieBelow(first.node, ctx, tokens + [first.token], depth);
      FittingIsBounded(items, mine);
      forall i | 0 <= i < |rest| ensures rest[i] == children[i + 1] {}
      forall c | c in rest ensures Untouched(Fitting(items, mine), tokens + [c.token]) {
        assert c in children;
        SiblingsAreApart(items, mine, tokens, first.token, c.token);
      }
      FlattenEachAppends(rest, ctx, tokens, Fitting(items, mine), depth);
      FittingTwice(items, mine, LeavesOfEach(rest, ctx, tokens, depth));
    } else {
      FittingNothing(items);
    }
  }

  lemma FittingIsBounded(items: seq<Item>, leaves: seq<Placed>)
    requires |items| <= MAX_PROPERTIES
    ensures |Fitting(items, leaves)| <= MAX_PROPERTIES
  {
  }

  lemma FittingNothing(items: seq<Item>)
    requires |items| <= MAX_PROPERTIES
    ensures Fitting(items, []) == items
  {
  }

  lemma FittingTwice(items: seq<Item>, xs: seq<Placed>, ys: seq<Placed>)
    requires |items| <= MAX_PROPERTIES
    ensures |Fitting(items, xs)| <= MAX_PROPERTIES
    ensures Fitting(Fitting(items, xs), ys) == Fitting(items, xs + ys)
  {
    hide PropertyPath;
    var room := MAX_PROPERTIES - |items|;
    if |xs| >= room {
      assert (xs + ys)[..room] == xs[..room];
      assert ys[..0] == [];
    } else if |xs| + |ys| > room {
      assert (xs + ys)[..room] == xs + ys[..room - |xs|];
    }
  }

  // ----- no two leaves share a place -----

  ghost predicate DistinctPlaces(leaves: seq<Placed>) {
    forall i, j :: 0 <= i < |leaves| && 0 <= j < |leaves| && leaves[i].tokens == leaves[j].tokens ==> i == j
  }

  lemma {:induction false} LeavesAreDistinct(n: Node, ctx: Context, tokens: seq<string>, depth: nat)
    requires Keyed(n) && Keyed(ctx.mappings)
    ensures DistinctPlaces(Leaves(n, ctx, tokens, depth))
    decreases Left(depth), 0
  {
    hide Resolve, Children, Keyed;
    if depth <= MAX_WALK_DEPTH {
      var r := Resolve(n, ctx, 0);
      if IsInner(r) {
        ResolveKeepsKeys(n, ctx, 0);
        ChildrenAreLookups(r.value);
        LeavesOfEachAreDistinct(Children(r.value), ctx, tokens, depth + 1);
      }
    }
  }

  lemma {:induction false} LeavesOfEachAreDistinct(children: seq<Child>, ctx: Context, tokens: seq<string>, depth: nat)
    requires Keyed(ctx.mappings) && DistinctTokens(children) && forall c :: c in children ==> Keyed(c.node)
    ensures DistinctPlaces(LeavesOfEach(children, ctx, tokens, depth))
    decreases Left(depth), 1, |children|
  {
    hide Leaves, Keyed;
    if children != [] {
      var first, rest := children[0], children[1..];
      var mine, others := Leaves(first.node, ctx, tokens + [first.token], depth), LeavesOfEach(rest, ctx, tokens, depth);
      forall i | 0 <= i < |rest| ensures rest[i] == children[i + 1] {}
      LeavesAreDistinct(first.node, ctx, tokens + [first.token], depth);
      LeavesOfEachAreDistinct(rest, ctx, tokens, depth);
      LeavesLieBelow(first.node, ctx, tokens + [first.token], depth);
      LeavesOfEachLieBelow(rest, ctx, tokens, depth);
      PlacesOfConcat(mine, others, first.token, rest, tokens);
    }
  }

  lemma PlacesOfConcat(mine: seq<Placed>, others: seq<Placed>, token: string, rest: seq<Child>, tokens: seq<string>)
    requires DistinctPlaces(mine) && DistinctPlaces(others)
    requires forall l :: l in mine ==> tokens + [token] <= l.tokens
    requires forall l :: l in others ==> exists c :: c in rest && tokens + [c.token] <= l.tokens
    requires forall c :: c in rest ==> c.token != token
    ensures DistinctPlaces(mine + others)
  {
    var all, n := mine + others, |tokens|;
    forall i, j | 0 <= i < |mine| && |mine| <= j < |all|
      ensures all[i].tokens != all[j].tokens
    {
      assert all[i] in mine && all[j] in others;
      var c :| c in rest && tokens + [c.token] <= all[j].tokens;
      assert (tokens + [token])[n] == token && (tokens + [c.token])[n] == c.token;
    }
  }

  // ----- leaves are lookups -----

  lemma {:induction false} LeavesAreLookups(n: Node, ctx: Context, tokens: seq<string>, path: seq<string>, value: PropertyValue, depth: nat)
    requires Keyed(n) && Keyed(ctx.mappings) && tokens + path != []
    ensures Placed(tokens + path, value) in Leaves(n, ctx, tokens, depth) <==> ValueAt(n, ctx, path, depth) == Some(value)
    decreases Left(depth), 0
  {
    hide Resolve, Children, Keyed, ChildAt;
    if depth <= MAX_WALK_DEPTH {
      var r := Resolve(n, ctx, 0);
      if IsInner(r) {
        ResolveKeepsKeys(n, ctx, 0);
        ChildrenAreLookups(r.value);
        LeavesOfEachAreLookups(Children(r.value), ctx, tokens, path, value, depth + 1);
        if path != [] { OneChildDecides(r.value, ctx, path, value, depth + 1); }
      } else if path == [] {
        assert tokens + path == tokens;
      } else {
        assert tokens + path != tokens;
      }
    }
  }

  lemma OneChildDecides(inner: Node, ctx: Context, path: seq<string>, value: PropertyValue, depth: nat)
    requires Keyed(inner) && path != []
    ensures (exists c :: c in Children(inner) && c.token == path[0] && ValueAt(c.node, ctx, path[1..], depth) == Some(value))
            <==> ChildAt(inner, path[0]).Some? && ValueAt(ChildAt(inner, path[0]).value, ctx, path[1..], depth) == Some(value)
  {
    hide Children, Keyed, ChildAt, ValueAt;
    ChildrenAreLookups(inner);
    if c :| c in Children(inner) && c.token == path[0] && ValueAt(c.node, ctx, path[1..], depth) == Some(value) {
      assert Child(c.token, c.node) in Children(inner);
    }
    if ChildAt(inner, path[0]).Some? {
      assert Child(path[0], ChildAt(inner, path[0]).value) in Children(inner);
    }
  }

  lemma {:induction false} LeavesOfEachAreLookups(children: seq<Child>, ctx: Context, tokens: seq<string>, path: seq<string>, value: PropertyValue, depth: nat)
    requires Keyed(ctx.mappings) && forall c :: c in children ==> Keyed(c.node)
    ensures Placed(tokens + path, value) in LeavesOfEach(children, ctx, tokens, depth)
            <==> path != [] && exists c :: c in children && c.token == path[0] && ValueAt(c.node, ctx, path[1..], depth) == Some(value)
    decreases Left(depth), 1, |children|
  {
    hide Leaves, Keyed, ValueAt;
    if children != [] {
      var first, rest := children[0], children[1..];
      LeavesOfEachAreLookups(rest, ctx, tokens, path, value, depth);
      LeavesLieBelow(first.node, ctx, tokens + [first.token], depth);
      var here := tokens + [first.token];
      if path != [] && first.token == path[0] {
        assert here + path[1..] == tokens + path;
        LeavesAreLookups(first.node, ctx, here, path[1..], value, depth);
      } else {
        assert Placed(tokens + path, value) in Leaves(first.node, ctx, here, depth) ==> here <= tokens + path;
        assert here <= tokens + path ==> here[|tokens|] == (tokens + path)[|tokens|];
        assert path != [] ==> (tokens + path)[|tokens|] == path[0];
      }
      assert children == [first] + rest;
    }
  }

  // ----- the main results -----

  /** A string-keyed property tree is flattened to its leaves in order, cut off at the cap.  No
      leaf is written twice, so nothing is ever overwritten. */
  lemma FlattenWritesEachLeafOnce(properties: Node, ctx: Context)
    requires Keyed(properties) && Keyed(ctx.mappings)
    ensures var leaves, out := Leaves(properties, ctx, [], 0), Flattened(properties, ctx, [], [], 0);
            && out == Items(if |leaves| <= MAX_PROPERTIES then leaves else leaves[..MAX_PROPERTIES])
            && DistinctPlaces(leaves)
            && DistinctPaths(out)
  {
    hide Leaves, Keyed, Flattened, PropertyPath, DistinctPaths;
    FlattenAppends(properties, ctx, [], [], 0);
    LeavesAreDistinct(properties, ctx, [], 0);
    var leaves := Leaves(properties, ctx, [], 0);
    var cut := if |leaves| <= MAX_PROPERTIES then leaves else leaves[..MAX_PROPERTIES];
    assert [] + Items(cut) == Items(cut);
    PathsAreDistinct(cut);
  }

  lemma PathsAreDistinct(leaves: seq<Placed>)
    requires DistinctPlaces(leaves)
    ensures DistinctPaths(Items(leaves))
  {
    hide PropertyPath;
    var items := Items(leaves);
    forall i, j | 0 <= i < |items| && 0 <= j < |items| && items[i].path == items[j].path
      ensures i == j
    {
      PropertyPathIsInjective(leaves[i].tokens, leaves[j].tokens);
    }
  }

  /** Within the cap, looking a pointer up in the flattened properties and walking the tree along
      its tokens agree: same paths, same values, nothing else. */
  lemma FlattenIsLookup(properties: Node, ctx: Context, tokens: seq<string>, value: PropertyValue)
    requires Keyed(properties) && Keyed(ctx.mappings) && tokens != []
    requires |Leaves(properties, ctx, [], 0)| <= MAX_PROPERTIES
    ensures Item(PropertyPath(tokens), value) in Flattened(properties, ctx, [], [], 0)
            <==> ValueAt(properties, ctx, tokens, 0) == Some(value)
  {
    hide Leaves, Keyed, Flattened, PropertyPath, ValueAt;
    FlattenWritesEachLeafOnce(properties, ctx);
    LeavesAreLookups(properties, ctx, [], tokens, value, 0);
    assert [] + tokens == tokens;
    var leaves := Leaves(properties, ctx, [], 0);
    if Item(PropertyPath(tokens), value) in Items(leaves) {
      var i :| 0 <= i < |leaves| && Items(leaves)[i] == Item(PropertyPath(tokens), value);
      PropertyPathIsInjective(leaves[i].tokens, tokens);
      assert leaves[i] == Placed(tokens, value);
    }
    if Placed(tokens, value) in leaves {
      var i :| 0 <= i < |leaves| && leaves[i] == Placed(tokens, value);
      assert Items(leaves)[i] == Item(PropertyPath(tokens), value);
    }
  }

  /** Every path written is the pointer of a token sequence. */
  lemma EveryPathIsAPointer(properties: Node, ctx: Context, item: Item)
    requires Keyed(properties) && Keyed(ctx.mappings) && item in Flattened(properties, ctx, [], [], 0)
    ensures exists tokens :: tokens != [] && item.path == PropertyPath(tokens)
  {
    hide Leaves, Keyed, Flattened, PropertyPath;
    FlattenWritesEachLeafOnce(properties, ctx);
    LeavesLieBelow(properties, ctx, [], 0);
    var leaves := Leaves(properties, ctx, [], 0);
    var i :| 0 <= i < |leaves| && item.path == PropertyPath(leaves[i].tokens);
    assert leaves[i] in leaves;
  }

  // ----- what leaves no trace -----

  /** Nothing below the node is written, read off the template: its chain ends in `AWS::NoValue`,
      in a picked call or in a structure of such nodes, or the walk is too deep. */
  predicate Silent(n: Node, ctx: Context, depth: nat)
    decreases Left(depth)
  {
    depth > MAX_WALK_DEPTH
    || match Ends(n, ctx, 0)
       case Nowhere => false
       case Computed(call) => IsNoValue(call) || (depth == MAX_WALK_DEPTH && IsInner(Resolve(n, ctx, 0)))
       case Taken(v) => IsCall(v) || (!v.Leaf? && forall c :: c in Children(v) ==> Silent(c.node, ctx, depth + 1))
  }

  lemma {:induction false} NoLeavesExactly(n: Node, ctx: Context, tokens: seq<string>, depth: nat)
    requires tokens != []
    ensures Leaves(n, ctx, tokens, depth) == [] <==> Silent(n, ctx, depth)
    decreases Left(depth), 0
  {
    hide Resolve, Children, Ends, IsNoValue, FnOf;
    if depth <= MAX_WALK_DEPTH {
      EndsDecide(n, ctx, 0);
      var r := Resolve(n, ctx, 0);
      if IsInner(r) {
        NoLeavesOfEachExactly(Children(r.value), ctx, tokens, depth + 1);
        if Ends(n, ctx, 0).Computed? { TextsAreWritten(r.value, ctx, depth + 1); }
      }
    }
  }

  lemma {:induction false} NoLeavesOfEachExactly(children: seq<Child>, ctx: Context, tokens: seq<string>, depth: nat)
    ensures LeavesOfEach(children, ctx, tokens, depth) == [] <==> forall c :: c in children ==> Silent(c.node, ctx, depth)
    decreases Left(depth), 1, |children|
  {
    hide Leaves, Silent;
    if children != [] {
      NoLeavesExactly(children[0].node, ctx, tokens + [children[0].token], depth);
      NoLeavesOfEachExactly(children[1..], ctx, tokens, depth);
      assert children == [children[0]] + children[1..];
    }
  }

  /** A computed list is written unless it lies too deep. */
  lemma TextsAreWritten(v: Node, ctx: Context, depth: nat)
    requires v.List? && Settled(v)
    ensures (forall c :: c in Children(v) ==> Silent(c.node, ctx, depth)) <==> depth > MAX_WALK_DEPTH
  {
    hide NatText;
    assert Children(v)[0] in Children(v) && Children(v)[0].node == v.items[0];
    assert Ends(v.items[0], ctx, 0) == Taken(v.items[0]);
  }

  /** While there is room, a property leaves no trace exactly when it is silent. */
  lemma NoTraceExactly(n: Node, ctx: Context, tokens: seq<string>, items: seq<Item>, depth: nat)
    requires Keyed(n) && Keyed(ctx.mappings) && tokens != []
    requires |items| < MAX_PROPERTIES && Untouched(items, tokens)
    ensures Flattened(n, ctx, tokens, items, depth) == items <==> Silent(n, ctx, depth)
  {
    hide Leaves, Keyed, Flattened, Untouched, Silent, PropertyPath;
    FlattenAppends(n, ctx, tokens, items, depth);
    NoLeavesExactly(n, ctx, tokens, depth);
    var leaves := Leaves(n, ctx, tokens, depth);
    if leaves != [] { assert |Fitting(items, leaves)| > |items|; } else { FittingNothing(items); }
  }

  /** In particular, a property whose chain does not end in a structure of the template vanishes
      exactly when it ends in `AWS::NoValue` or in a picked call. */
  lemma CallVanishesExactly(n: Node, ctx: Context, tokens: seq<string>, items: seq<Item>, depth: nat)
    requires Keyed(n) && Keyed(ctx.mappings) && tokens != [] && depth < MAX_WALK_DEPTH
    requires |items| < MAX_PROPERTIES && Untouched(items, tokens)
    requires var e := Ends(n, ctx, 0); e.Taken? ==> e.node.Leaf? || IsCall(e.node)
    ensures Flattened(n, ctx, tokens, items, depth) == items <==> Vanishes(n, ctx)
  {
    hide Keyed, Flattened, Untouched, Ends, IsNoValue, IsCall;
    NoTraceExactly(n, ctx, tokens, items, depth);
  }

  /** For instance, a call that `Fn::Select` picks out of a literal list is returned unresolved, and the walk
      then drops the property as if it had never been written. */
  lemma SelectedCallVanishes(items: seq<Node>, k: nat, ctx: Context, tokens: seq<string>, out: seq<Item>, depth: nat)
    requires k < |items| && IsCall(items[k])
    ensures var select := Dict([Entry("Fn::Select", List([Leaf(Int(k)), List(items)]))]);
            Flattened(select, ctx, tokens, out, depth) == out
  {
    hide Put, PropertyPath, Children;
    var select := Dict([Entry("Fn::Select", List([Leaf(Int(k)), List(items)]))]);
    assert IsCall(select) && Callee(select) == SelectFn;
    assert Resolve(select, ctx, 0) == ResolveCall(select, ctx, 0) == ResolveSelect(Arg(select), ctx, 0);
    assert Resolve(List(items), ctx, 1) == Known(List(items), FromTemplate);
    assert Resolve(Leaf(Int(k)), ctx, 1) == Known(Leaf(Int(k)), FromTemplate);
  }
}
