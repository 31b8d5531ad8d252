/** Flattening a resource's properties to JSON Pointers, in place. */
module Flatten {
  import opened Templates
  import opened SubTemplates
  import opened Intrinsics
  import opened Ordering
  import opened Pointers
  import opened Resources

  const MAX_PROPERTIES: nat := 5000
  const MAX_WALK_DEPTH: nat := 60

  /** One entry of the flattened mapping, which keeps its insertion order. */
  datatype Item = Item(path: string, value: PropertyValue)

  predicate DistinctPaths(items: seq<Item>) {
    forall i, j :: 0 <= i < |items| && 0 <= j < |items| && items[i].path == items[j].path ==> i == j
  }

  /** Dictionary assignment: an existing key keeps its place. */
  function Put(items: seq<Item>, path: string, value: PropertyValue): seq<Item> {
    if items == [] then [Item(path, value)]
    else if items[0].path == path then [Item(path, value)] + items[1..]
    else [items[0]] + Put(items[1..], path, value)
  }

  /** The output dictionary that the walk writes into. */
  class PropertyStore {
    var items: seq<Item>

    ghost predicate Valid() reads this {
      DistinctPaths(items)
    }

    constructor ()
      ensures Valid() && items == []
    {
      items := [];
    }

    method Write(path: string, value: PropertyValue)
      requires Valid()
      modifies this
      ensures Valid() && items == Put(old(items), path, value)
    {
      hide DistinctPaths, Put;
      PutKeepsPathsDistinct(items, path, value);
      var i := 0;
      while i < |items| && items[i].path != path
        invariant i <= |items|
        invariant forall j :: 0 <= j < i ==> items[j].path != path
      {
        i := i + 1;
      }
      PutAt(items, i, path, value);
      if i < |items| {
        items := items[i := Item(path, value)];
      } else {
        items := items + [Item(path, value)];
      }
    }
  }

  lemma {:induction false} PutAt(items: seq<Item>, i: nat, path: string, value: PropertyValue)
    requires i <= |items| && (forall j :: 0 <= j < i ==> items[j].path != path) && (i < |items| ==> items[i].path == path)
    ensures Put(items, path, value) == if i < |items| then items[i := Item(path, value)] else items + [Item(path, value)]
    decreases |items|
  {
    if i > 0 {
      assert forall j :: 0 <= j < i - 1 ==> items[1..][j] == items[j + 1];
      PutAt(items[1..], i - 1, path, value);
    }
  }

  lemma {:induction false} PutPaths(items: seq<Item>, path: string, value: PropertyValue)
    ensures forall item :: item in Put(items, path, value) ==> item == Item(path, value) || item in items
    ensures |Put(items, path, value)| <= |items| + 1
    ensures (forall item :: item in items ==> item.path != path) ==> Put(items, path, value) == items + [Item(path, value)]
  {
    if items != [] && items[0].path != path { PutPaths(items[1..], path, value); }
  }

  lemma {:induction false} PutKeepsPathsDistinct(items: seq<Item>, path: string, value: PropertyValue)
    requires DistinctPaths(items)
    ensures DistinctPaths(Put(items, path, value))
  {
    if items != [] {
      var rest := items[1..];
      assert DistinctPaths(rest) by {
        assert forall i :: 0 <= i < |rest| ==> rest[i] == items[i + 1];
      }
      forall i | 0 <= i < |rest| ensures rest[i].path != items[0].path {
        assert rest[i] == items[i + 1];
      }
      if items[0].path != path {
        PutKeepsPathsDistinct(rest, path, value);
        PutPaths(rest, path, value);
        forall i | 0 <= i < |Put(rest, path, value)| ensures Put(rest, path, value)[i].path != items[0].path {
          assert Put(rest, path, value)[i] in Put(rest, path, value);
        }
      }
    }
  }

  // ----- what a node contributes -----

  /** A float becomes text, so that no binary approximation reaches a price. */
  function AsScalar(s: Scalar): Scalar {
    if s.Float? then Str(s.text) else s
  }

  /** The property value of a resolution; none for an omitted value or a structure. */
  function ToPropertyValue(r: Resolution, detail: string): Option<PropertyValue> {
    match r
    case Omitted => None
    case Reference(logicalId, attribute) => Some(ResourceRef(logicalId, attribute))
    case Unknown(kind, scenarios) => Some(Unresolved(kind, detail, scenarios))
    case Known(value, provenance) =>
      if value.Leaf? then Some(Resolved(AsScalar(value.scalar), provenance)) else None
  }

  /** A list, or a mapping that is not an intrinsic call, is walked into. */
  predicate IsInner(r: Resolution) {
    r.Known? && (r.value.List? || (r.value.Dict? && !IsCall(r.value)))
  }

  predicate EntryAtMost(x: Entry, y: Entry) {
    TextAtMost(x.key, y.key)
  }

  datatype Child = Child(token: string, node: Node)

  function Children(value: Node): seq<Child> {
    match value
    case Leaf(_) => []
    case List(items) => seq(|items|, i requires 0 <= i < |items| => Child(NatText(i), items[i]))
    case Dict(entries) =>
      var sorted := SortBy(entries, EntryAtMost);
      seq(|sorted|, i requires 0 <= i < |sorted| => Child(sorted[i].key, sorted[i].value))
  }

  function Left(depth: nat): nat {
    if depth > MAX_WALK_DEPTH then 0 else MAX_WALK_DEPTH + 1 - depth
  }

  function Flattened(n: Node, ctx: Context, tokens: seq<string>, items: seq<Item>, depth: nat): seq<Item>
    decreases Left(depth), 0
  {
    if depth > MAX_WALK_DEPTH || |items| >= MAX_PROPERTIES then items
    else
      var r := Resolve(n, ctx, 0);
      if IsInner(r) then FlattenedEach(Children(r.value), ctx, tokens, items, depth + 1)
      else
        match ToPropertyValue(r, ctx.host.textOf(n))
        case None => items
        case Some(leaf) => if tokens == [] then items else Put(items, PropertyPath(tokens), leaf)
  }

  function FlattenedEach(children: seq<Child>, ctx: Context, tokens: seq<string>, items: seq<Item>, depth: nat): seq<Item>
    decreases Left(depth), 1, |children|
  {
    if children == [] then items
    else
      var more := Flattened(children[0].node, ctx, tokens + [children[0].token], items, depth);
      FlattenedEach(children[1..], ctx, tokens, more, depth)
  }

  /** The recursive walk, writing resolved leaves into the store. */
  method Flatten(n: Node, ctx: Context, tokens: seq<string>, store: PropertyStore, depth: nat)
    requires store.Valid()
    modifies store
    ensures store.Valid() && store.items == Flattened(n, ctx, tokens, old(store.items), depth)
    decreases Left(depth)
  {
    hide Resolve, SortBy, Put, DistinctPaths, PropertyPath, FlattenedEach, NatText;
    if depth > MAX_WALK_DEPTH || |store.items| >= MAX_PROPERTIES {
      return;
    }
    var resolution := Resolve(n, ctx, 0);
    if resolution.Omitted? {
      return;
    }
    if resolution.Known? {
      var value := resolution.value;
      ghost var children, before := Children(value), store.items;
      assert children[0..] == children;
      if value.Dict? && !IsCall(value) {
        var sorted := SortBy(value.entries, EntryAtMost);
        for i := 0 to |sorted|
          invariant store.Valid()
          invariant FlattenedEach(children, ctx, tokens, before, depth + 1) == FlattenedEach(children[i..], ctx, tokens, store.items, depth + 1)
        {
          EachStep(children, i, ctx, tokens, store.items, depth + 1);
          Flatten(sorted[i].value, ctx, tokens + [sorted[i].key], store, depth + 1);
        }
        EachEnds(children, ctx, tokens, store.items, depth + 1);
        return;
      }
      if value.List? {
        for i := 0 to |value.items|
          invariant store.Valid()
          invariant FlattenedEach(children, ctx, tokens, before, depth + 1) == FlattenedEach(children[i..], ctx, tokens, store.items, depth + 1)
        {
          EachStep(children, i, ctx, tokens, store.items, depth + 1);
          Flatten(value.items[i], ctx, tokens + [NatText(i)], store, depth + 1);
        }
        EachEnds(children, ctx, tokens, store.items, depth + 1);
        return;
      }
    }
    var leaf := ToPropertyValue(resolution, ctx.host.textOf(n));
    if leaf.Some? && tokens != [] {
      store.Write(PropertyPath(tokens), leaf.value);
    }
  }

  lemma EachStep(children: seq<Child>, i: nat, ctx: Context, tokens: seq<string>, items: seq<Item>, depth: nat)
    requires i < |children|
    ensures FlattenedEach(children[i..], ctx, tokens, items, depth)
            == FlattenedEach(children[i + 1..], ctx, tokens,
                             Flattened(children[i].node, ctx, tokens + [children[i].token], items, depth), depth)
  {
    hide Flattened;
    assert children[i..][1..] == children[i + 1..];
  }

  lemma EachEnds(children: seq<Child>, ctx: Context, tokens: seq<string>, items: seq<Item>, depth: nat)
    ensures FlattenedEach(children[|children|..], ctx, tokens, items, depth) == items
  {
  }

  // ----- the cap -----

  /** Whatever the template, the output never outgrows the cap. */
  lemma {:induction false} FlattenStaysWithinCap(n: Node, ctx: Context, tokens: seq<string>, items: seq<Item>, depth: nat)
    requires |items| <= MAX_PROPERTIES
    ensures |Flattened(n, ctx, tokens, items, depth)| <= MAX_PROPERTIES
    decreases Left(depth), 0
  {
    hide Resolve, SortBy, Put, PropertyPath, Children;
    if depth <= MAX_WALK_DEPTH && |items| < MAX_PROPERTIES {
      var r := Resolve(n, ctx, 0);
      if IsInner(r) {
        FlattenEachStaysWithinCap(Children(r.value), ctx, tokens, items, depth + 1);
      } else if leaf :| ToPropertyValue(r, ctx.host.textOf(n)) == Some(leaf) && tokens != [] {
        PutPaths(items, PropertyPath(tokens), leaf);
      }
    }
  }

  lemma {:induction false} FlattenEachStaysWithinCap(children: seq<Child>, ctx: Context, tokens: seq<string>, items: seq<Item>, depth: nat)
    requires |items| <= MAX_PROPERTIES
    ensures |FlattenedEach(children, ctx, tokens, items, depth)| <= MAX_PROPERTIES
    decreases Left(depth), 1, |children|
  {
    hide Flattened;
    if children != [] {
      var below := tokens + [children[0].token];
      FlattenStaysWithinCap(children[0].node, ctx, below, items, depth);
      FlattenEachStaysWithinCap(children[1..], ctx, tokens, Flattened(children[0].node, ctx, below, items, depth), depth);
    }
  }

  // ----- string-keyed trees -----

  /** No mapping anywhere in the tree names a key twice. */
  ghost predicate Keyed(n: Node) {
    match n
    case Leaf(_) => true
    case List(items) => forall i :: 0 <= i < |items| ==> Keyed(items[i])
    case Dict(entries) =>
      && (forall i, j :: 0 <= i < |entries| && 0 <= j < |entries| && entries[i].key == entries[j].key ==> i == j)
      && forall i :: 0 <= i < |entries| ==> Keyed(entries[i].value)
  }

  lemma {:induction false} DescendKeepsKeys(n: Node, keys: seq<string>)
    requires Keyed(n)
    ensures Descend(n, keys).Some? ==> Keyed(Descend(n, keys).value)
    decreases |keys|
  {
    if keys != [] && n.Dict? {
      var child := Lookup(n.entries, keys[0]);
      if child.Some? { DescendKeepsKeys(child.value, keys[1..]); }
    }
  }

  /** Resolution yields scalars, lists of texts, or parts of the template itself. */
  lemma {:induction false} ResolveKeepsKeys(n: Node, ctx: Context, depth: nat)
    requires Keyed(n) && Keyed(ctx.mappings)
    ensures Resolve(n, ctx, depth).Known? ==> Keyed(Resolve(n, ctx, depth).value)
    decreases Remaining(depth)
  {
    hide ResolveCall, IndexOf, FnOf;
    if depth <= MAX_DEPTH && IsCall(n) {
      var arg := Arg(n);
      assert Keyed(arg);
      assert Resolve(n, ctx, depth) == ResolveCall(n, ctx, depth);
      CallCases(n, ctx, depth);
      if Callee(n).FindInMapFn? {
        FindKeepsKeys(arg, ctx, depth);
      } else if Callee(n).IfFn? && Takes(arg, 3) {
        ResolveKeepsKeys(arg.items[1], ctx, depth + 1);
        ResolveKeepsKeys(arg.items[2], ctx, depth + 1);
      } else if Callee(n).SelectFn? && Takes(arg, 2) {
        ResolveKeepsKeys(arg.items[1], ctx, depth + 1);
      }
    }
  }

  /** Three handlers may yield structure taken from the template; the others make their own. */
  lemma CallCases(n: Node, ctx: Context, depth: nat)
    requires depth <= MAX_DEPTH && IsCall(n)
    ensures Callee(n).FindInMapFn? ==> ResolveCall(n, ctx, depth) == ResolveFindInMap(Arg(n), ctx, depth)
    ensures Callee(n).IfFn? ==> ResolveCall(n, ctx, depth) == ResolveIf(Arg(n), ctx, depth)
    ensures Callee(n).SelectFn? ==> ResolveCall(n, ctx, depth) == ResolveSelect(Arg(n), ctx, depth)
    ensures !Callee(n).FindInMapFn? && !Callee(n).IfFn? && !Callee(n).SelectFn? ==>
              (ResolveCall(n, ctx, depth).Known? ==> Keyed(ResolveCall(n, ctx, depth).value))
  {
    hide Resolve, ResolveCall, FnOf;
    if Callee(n).JoinFn? || Callee(n).SplitFn? || Callee(n).SubFn? || Callee(n).RefFn? { TextsAreKeyed(n, ctx, depth); }
    else { OthersAreKeyed(n, ctx, depth); }
  }

  lemma TextsAreKeyed(n: Node, ctx: Context, depth: nat)
    requires depth <= MAX_DEPTH && IsCall(n)
    requires Callee(n).JoinFn? || Callee(n).SplitFn? || Callee(n).SubFn? || Callee(n).RefFn?
    ensures ResolveCall(n, ctx, depth).Known? ==> Keyed(ResolveCall(n, ctx, depth).value)
  {
    hide SubPieces, ParseSub, JoinPieces, SplitText, Resolve, JoinList, FnOf, PseudoOf;
  }

  lemma OthersAreKeyed(n: Node, ctx: Context, depth: nat)
    requires depth <= MAX_DEPTH && IsCall(n)
    requires !(Callee(n).JoinFn? || Callee(n).SplitFn? || Callee(n).SubFn? || Callee(n).RefFn?)
    ensures Callee(n).FindInMapFn? ==> ResolveCall(n, ctx, depth) == ResolveFindInMap(Arg(n), ctx, depth)
    ensures Callee(n).IfFn? ==> ResolveCall(n, ctx, depth) == ResolveIf(Arg(n), ctx, depth)
    ensures Callee(n).SelectFn? ==> ResolveCall(n, ctx, depth) == ResolveSelect(Arg(n), ctx, depth)
    ensures !Callee(n).FindInMapFn? && !Callee(n).IfFn? && !Callee(n).SelectFn? ==>
              (ResolveCall(n, ctx, depth).Known? ==> Keyed(ResolveCall(n, ctx, depth).value))
  {
    hide EvaluateCondition, EvaluateExpression, Resolve, ResolveFindInMap, ResolveIf, ResolveSelect, ResolveGetAtt, FnOf;
    GetAttIsNeverKnown(Arg(n), ctx);
  }

  lemma GetAttIsNeverKnown(arg: Node, ctx: Context)
    ensures !ResolveGetAtt(arg, ctx).Known?
  {
  }

  lemma FindKeepsKeys(arg: Node, ctx: Context, depth: nat)
    requires depth <= MAX_DEPTH && Keyed(ctx.mappings)
    ensures ResolveFindInMap(arg, ctx, depth).Known? ==> Keyed(ResolveFindInMap(arg, ctx, depth).value)
  {
    hide MapKeys, Keyed;
    if arg.List? && |arg.items| >= 3 && MapKeys(arg.items[..3], ctx, depth).Some? {
      DescendKeepsKeys(ctx.mappings, MapKeys(arg.items[..3], ctx, depth).value.texts);
    }
  }

  lemma {:induction false} NatTextIsInjective(m: nat, n: nat)
    requires NatText(m) == NatText(n)
    ensures m == n
    decreases m
  {
    var digits := "0123456789";
    NatTextIsLonger(m);
    NatTextIsLonger(n);
    var t := NatText(m);
    assert forall d, e :: 0 <= d < 10 && 0 <= e < 10 && digits[d] == digits[e] ==> d == e;
    if m >= 10 && n >= 10 {
      assert t[..|t| - 1] == NatText(m / 10) == NatText(n / 10);
      NatTextIsInjective(m / 10, n / 10);
      assert t[|t| - 1] == digits[m % 10] == digits[n % 10];
    } else if m < 10 && n < 10 {
      assert t[0] == digits[m] == digits[n];
    }
  }

  lemma NatTextIsLonger(n: nat)
    ensures if n < 10 then |NatText(n)| == 1 else |NatText(n)| == |NatText(n / 10)| + 1 && |NatText(n / 10)| >= 1
  {
    if n >= 10 { NatTextIsNotEmpty(n / 10); }
  }

  lemma {:induction false} NatTextIsNotEmpty(n: nat)
    ensures NatText(n) != ""
  {
  }

  predicate DistinctTokens(children: seq<Child>) {
    forall i, j :: 0 <= i < |children| && 0 <= j < |children| && children[i].token == children[j].token ==> i == j
  }

  /** The child of a structure under a token: a mapping's entry, a list's element. */
  ghost function ChildAt(value: Node, token: string): Option<Node> {
    match value
    case Leaf(_) => None
    case List(items) =>
      if exists i :: 0 <= i < |items| && NatText(i) == token then
        var i :| 0 <= i < |items| && NatText(i) == token;
        Some(items[i])
      else None
    case Dict(entries) => Lookup(entries, token)
  }

  /** The walk meets every child exactly once, under its own token. */
  lemma ChildrenAreLookups(value: Node)
    requires Keyed(value)
    ensures DistinctTokens(Children(value))
    ensures forall c :: c in Children(value) ==> Keyed(c.node)
    ensures forall token, node :: Child(token, node) in Children(value) <==> ChildAt(value, token) == Some(node)
  {
    match value
    case Leaf(_) =>
    case List(_) => ListChildren(value);
    case Dict(_) => DictChildren(value);
  }

  lemma ListChildren(value: Node)
    requires value.List? && Keyed(value)
    ensures DistinctTokens(Children(value))
    ensures forall c :: c in Children(value) ==> Keyed(c.node)
    ensures forall token, node :: Child(token, node) in Children(value) <==> ChildAt(value, token) == Some(node)
  {
    hide NatText;
    var items, children := value.items, Children(value);
    forall i: nat, j: nat | NatText(i) == NatText(j) ensures i == j { NatTextIsInjective(i, j); }
    forall token, node
      ensures Child(token, node) in children <==> ChildAt(value, token) == Some(node)
    {
      if Child(token, node) in children {
        var i :| 0 <= i < |children| && children[i] == Child(token, node);
        assert NatText(i) == token;
      }
      if ChildAt(value, token) == Some(node) {
        var i :| 0 <= i < |items| && NatText(i) == token && items[i] == node;
        assert children[i] == Child(token, node);
      }
    }
  }

  lemma {:induction false} LookupFinds(entries: seq<Entry>, k: nat)
    requires k < |entries|
    requires forall i, j :: 0 <= i < |entries| && 0 <= j < |entries| && entries[i].key == entries[j].key ==> i == j
    ensures Lookup(entries, entries[k].key) == Some(entries[k].value)
  {
    if k > 0 {
      var rest := entries[1..];
      assert forall i :: 0 <= i < |rest| ==> rest[i] == entries[i + 1];
      LookupFinds(rest, k - 1);
    }
  }

  lemma DictChildren(value: Node)
    requires value.Dict? && Keyed(value)
    ensures DistinctTokens(Children(value))
    ensures forall c :: c in Children(value) ==> Keyed(c.node)
    ensures forall token, node :: Child(token, node) in Children(value) <==> ChildAt(value, token) == Some(node)
  {
    hide SortBy, Lookup;
    var entries, sorted, children := value.entries, SortBy(value.entries, EntryAtMost), Children(value);
    SortKeepsItems(entries, EntryAtMost);
    SortedKeysDiffer(entries, sorted);
    forall i | 0 <= i < |sorted|
      ensures exists k :: 0 <= k < |entries| && entries[k] == sorted[i]
    {
      assert sorted[i] in multiset(entries);
    }
    forall token, node | Child(token, node) in children
      ensures ChildAt(value, token) == Some(node)
    {
      var i :| 0 <= i < |children| && children[i] == Child(token, node);
      var k :| 0 <= k < |entries| && entries[k] == sorted[i];
      LookupFinds(entries, k);
    }
    forall token, node | ChildAt(value, token) == Some(node)
      ensures Child(token, node) in children
    {
      if Lookup(entries, token) == Some(node) {
        var k :| 0 <= k < |entries| && entries[k].key == token && node == entries[k].value;
        assert entries[k] in multiset(sorted);
        var i :| 0 <= i < |sorted| && sorted[i] == entries[k];
        assert children[i] == Child(token, node);
      }
    }
  }

  lemma SortedKeysDiffer(entries: seq<Entry>, sorted: seq<Entry>)
    requires multiset(sorted) == multiset(entries)
    requires forall i, j :: 0 <= i < |entries| && 0 <= j < |entries| && entries[i].key == entries[j].key ==> i == j
    ensures forall i, j :: 0 <= i < |sorted| && 0 <= j < |sorted| && sorted[i].key == sorted[j].key ==> i == j
  {
    forall i, j | 0 <= i < j < |sorted| ensures sorted[i].key != sorted[j].key {
      if sorted[i].key == sorted[j].key {
        assert sorted[i] in multiset(entries) && sorted[j] in multiset(entries);
        var a :| 0 <= a < |entries| && entries[a] == sorted[i];
        var b :| 0 <= b < |entries| && entries[b] == sorted[j];
        assert sorted == sorted[..i] + [sorted[i]] + sorted[i + 1..j] + [sorted[j]] + sorted[j + 1..];
        assert multiset(sorted)[entries[a]] >= 2;
        OccursOnce(entries, a);
      }
    }
  }

  lemma OccursOnce(entries: seq<Entry>, a: nat)
    requires a < |entries|
    requires forall i, j :: 0 <= i < |entries| && 0 <= j < |entries| && entries[i].key == entries[j].key ==> i == j
    ensures multiset(entries)[entries[a]] == 1
  {
    var e, before, after := entries[a], entries[..a], entries[a + 1..];
    assert entries == before + [e] + after;
    assert forall i :: 0 <= i < |after| ==> after[i] == entries[a + 1 + i];
    assert e !in before && e !in after;
  }
}
