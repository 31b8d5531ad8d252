/** How deep a template may nest before the depth limit can matter, read off the template. */
module DepthLimit {
  import opened Templates
  import opened SubTemplates
  import opened Intrinsics
  import opened Monotonicity
  import opened Deployment
  import opened CycleGuard

  /** Calls inside calls go at most `h` levels down. */
  predicate NestsWithin(n: Node, h: nat)
    decreases n
  {
    match n
    case Leaf(_) => true
    case List(items) => forall i :: 0 <= i < |items| ==> NestsWithin(items[i], h)
    case Dict(entries) =>
      if IsCall(n) then h > 0 && NestsWithin(Arg(n), h - 1)
      else forall i :: 0 <= i < |entries| ==> NestsWithin(entries[i].value, h)
  }

  lemma {:induction false} NestsWider(n: Node, h: nat, h': nat)
    requires NestsWithin(n, h) && h <= h'
    ensures NestsWithin(n, h')
    decreases n
  {
    match n
    case Leaf(_) =>
    case List(items) =>
      forall i | 0 <= i < |items| ensures NestsWithin(items[i], h') { NestsWider(items[i], h, h'); }
    case Dict(entries) =>
      if IsCall(n) {
        NestsWider(Arg(n), h - 1, h' - 1);
      } else {
        forall i | 0 <= i < |entries| ensures NestsWithin(entries[i].value, h') { NestsWider(entries[i].value, h, h'); }
      }
  }

  lemma {:induction false} LiteralNests(n: Node, h: nat)
    requires Literal(n)
    ensures NestsWithin(n, h) && ConditionFree(n)
    decreases n
  {
    match n
    case Leaf(_) =>
    case List(items) =>
      forall i | 0 <= i < |items| ensures NestsWithin(items[i], h) && ConditionFree(items[i]) { LiteralNests(items[i], h); }
    case Dict(entries) =>
      forall i | 0 <= i < |entries| ensures NestsWithin(entries[i].value, h) && ConditionFree(entries[i].value) {
        LiteralNests(entries[i].value, h);
      }
  }

  // ----- resolution -----

  /** A term without conditions that nests within `h`, over literal mappings. */
  ghost predicate Shallow(n: Node, ctx: Context, h: nat) {
    NestsWithin(n, h) && ConditionFree(n) && Literal(ctx.mappings)
  }

  /** Both depths leave room for `h` more levels. */
  predicate Room(depth: nat, depth': nat, h: nat) {
    depth + h <= MAX_DEPTH && depth' + h <= MAX_DEPTH
  }

  lemma PartsAreShallow(n: Node, ctx: Context, h: nat)
    requires Shallow(n, ctx, h)
    ensures n.List? ==> forall i :: 0 <= i < |n.items| ==> Shallow(n.items[i], ctx, h)
    ensures !IsCall(n) && n.Dict? ==> forall i :: 0 <= i < |n.entries| ==> Shallow(n.entries[i].value, ctx, h)
    ensures IsCall(n) ==> h > 0 && Shallow(Arg(n), ctx, h - 1) && !UsesConditions(Callee(n))
  {
    hide FnOf, Literal;
  }

  lemma {:induction false} DepthIsIrrelevant(n: Node, ctx: Context, depth: nat, depth': nat, h: nat)
    requires Shallow(n, ctx, h) && Room(depth, depth', h)
    ensures var r := Resolve(n, ctx, depth); Resolve(n, ctx, depth') == r && (r.Known? ==> Shallow(r.value, ctx, h))
    decreases h, 4
  {
    hide FnOf, Shallow, ResolveCall;
    if IsCall(n) {
      PartsAreShallow(n, ctx, h);
      CallAtDepths(n, ctx, depth, depth', h);
    }
  }

  lemma {:induction false} CallAtDepths(n: Node, ctx: Context, depth: nat, depth': nat, h: nat)
    requires IsCall(n) && h > 0 && Shallow(Arg(n), ctx, h - 1) && !UsesConditions(Callee(n)) && Room(depth, depth', h)
    ensures var r := ResolveCall(n, ctx, depth); ResolveCall(n, ctx, depth') == r && (r.Known? ==> Shallow(r.value, ctx, h))
    decreases h, 3
  {
    hide FnOf, Shallow, Resolve, ResolveFindInMap, ResolveJoin, ResolveSelect, ResolveSplit, ResolveSub, ResolveCall;
    if Gathers(Callee(n)) { GatheringAtDepths(n, ctx, depth, depth', h); } else { LookupAtDepths(n, ctx, depth, depth', h); }
  }

  lemma LookupAtDepths(n: Node, ctx: Context, depth: nat, depth': nat, h: nat)
    requires IsCall(n) && !Gathers(Callee(n)) && !UsesConditions(Callee(n)) && depth <= MAX_DEPTH && depth' <= MAX_DEPTH && h > 0
    requires Shallow(Arg(n), ctx, h - 1)
    ensures var r := ResolveCall(n, ctx, depth); ResolveCall(n, ctx, depth') == r && (r.Known? ==> Shallow(r.value, ctx, h))
  {
    hide FnOf, PseudoOf, AttributeName, Literal;
  }

  lemma {:induction false} GatheringAtDepths(n: Node, ctx: Context, depth: nat, depth': nat, h: nat)
    requires IsCall(n) && h > 0 && Shallow(Arg(n), ctx, h - 1) && Gathers(Callee(n)) && Room(depth, depth', h)
    ensures var r := ResolveCall(n, ctx, depth); ResolveCall(n, ctx, depth') == r && (r.Known? ==> Shallow(r.value, ctx, h))
    decreases h, 2
  {
    hide FnOf, Shallow, Resolve, ResolveFindInMap, ResolveJoin, ResolveSelect, ResolveSplit, ResolveSub;
    var arg := Arg(n);
    match Callee(n)
    case FindInMapFn => FindInMapAtDepths(arg, ctx, depth, depth', h);
    case JoinFn => JoinAtDepths(arg, ctx, depth, depth', h);
    case SelectFn => SelectAtDepths(arg, ctx, depth, depth', h);
    case SplitFn => SplitAtDepths(arg, ctx, depth, depth', h);
    case SubFn => SubAtDepths(arg, ctx, depth, depth', h);
  }

  lemma {:induction false} KeysAtDepths(parts: seq<Node>, ctx: Context, depth: nat, depth': nat, h: nat)
    requires h > 0 && Room(depth, depth', h) && forall i :: 0 <= i < |parts| ==> Shallow(parts[i], ctx, h - 1)
    ensures MapKeys(parts, ctx, depth) == MapKeys(parts, ctx, depth')
    decreases h, 0, |parts|
  {
    hide Resolve, Shallow;
    if parts != [] {
      DepthIsIrrelevant(parts[0], ctx, depth + 1, depth' + 1, h - 1);
      assert forall i :: 0 <= i < |parts[1..]| ==> parts[1..][i] == parts[i + 1];
      KeysAtDepths(parts[1..], ctx, depth, depth', h);
    }
  }

  lemma FindInMapAtDepths(arg: Node, ctx: Context, depth: nat, depth': nat, h: nat)
    requires h > 0 && Shallow(arg, ctx, h - 1) && Room(depth, depth', h)
    ensures var r := ResolveFindInMap(arg, ctx, depth);
            ResolveFindInMap(arg, ctx, depth') == r && (r.Known? ==> Shallow(r.value, ctx, h))
    decreases h, 1
  {
    hide MapKeys, Descend, NestsWithin, ConditionFree, Literal;
    PartsAreShallow(arg, ctx, h - 1);
    if arg.List? && |arg.items| >= 3 {
      KeysAtDepths(arg.items[..3], ctx, depth, depth', h);
      var keys := MapKeys(arg.items[..3], ctx, depth);
      if keys.Some? {
        DescendIsLiteral(ctx.mappings, keys.value.texts);
        var entry := Descend(ctx.mappings, keys.value.texts);
        if entry.Some? { LiteralNests(entry.value, h); }
      }
    }
  }

  lemma {:induction false} PiecesAtDepths(parts: seq<Node>, ctx: Context, depth: nat, depth': nat, h: nat)
    requires h > 0 && Room(depth, depth', h) && forall i :: 0 <= i < |parts| ==> Shallow(parts[i], ctx, h - 1)
    ensures JoinPieces(parts, ctx, depth) == JoinPieces(parts, ctx, depth')
    decreases h, 0, |parts|
  {
    hide Resolve, Shallow, PieceText;
    if parts != [] {
      DepthIsIrrelevant(parts[0], ctx, depth + 1, depth' + 1, h - 1);
      assert forall i :: 0 <= i < |parts[1..]| ==> parts[1..][i] == parts[i + 1];
      PiecesAtDepths(parts[1..], ctx, depth, depth', h);
    }
  }

  lemma JoinAtDepths(arg: Node, ctx: Context, depth: nat, depth': nat, h: nat)
    requires h > 0 && Shallow(arg, ctx, h - 1) && Room(depth, depth', h)
    ensures var r := ResolveJoin(arg, ctx, depth);
            ResolveJoin(arg, ctx, depth') == r && (r.Known? ==> Shallow(r.value, ctx, h))
    decreases h, 1
  {
    hide JoinPieces, Resolve, Shallow, Intersperse;
    PartsAreShallow(arg, ctx, h - 1);
    if Takes(arg, 2) {
      DepthIsIrrelevant(arg.items[1], ctx, depth + 1, depth' + 1, h - 1);
      var list := JoinList(arg.items[1], ctx, depth);
      PartsAreShallow(list, ctx, h - 1);
      if list.List? { PiecesAtDepths(list.items, ctx, depth, depth', h); }
    }
    var r := ResolveJoin(arg, ctx, depth);
    if r.Known? { LeafIsShallow(r.value, arg, ctx, h); }
  }

  lemma LeafIsShallow(leaf: Node, other: Node, ctx: Context, h: nat)
    requires leaf.Leaf? && h > 0 && Shallow(other, ctx, h - 1)
    ensures Shallow(leaf, ctx, h)
  {
    hide Literal;
  }

  lemma SelectAtDepths(arg: Node, ctx: Context, depth: nat, depth': nat, h: nat)
    requires h > 0 && Shallow(arg, ctx, h - 1) && Room(depth, depth', h)
    ensures var r := ResolveSelect(arg, ctx, depth);
            ResolveSelect(arg, ctx, depth') == r && (r.Known? ==> Shallow(r.value, ctx, h))
    decreases h, 1
  {
    hide Resolve, Shallow, IndexOf, Pick;
    PartsAreShallow(arg, ctx, h - 1);
    if Takes(arg, 2) {
      DepthIsIrrelevant(arg.items[0], ctx, depth + 1, depth' + 1, h - 1);
      DepthIsIrrelevant(arg.items[1], ctx, depth + 1, depth' + 1, h - 1);
      var index, candidates := Resolve(arg.items[0], ctx, depth + 1), Resolve(arg.items[1], ctx, depth + 1);
      if index.Known? && candidates.Known? && index.value.Leaf? && IndexOf(index.value.scalar, ctx.host).Some? {
        PickIsShallow(candidates.value, IndexOf(index.value.scalar, ctx.host).value, ctx, h);
      }
    }
  }

  lemma PickIsShallow(v: Node, position: int, ctx: Context, h: nat)
    requires h > 0 && Shallow(v, ctx, h - 1)
    ensures Pick(v, position).Some? ==> Shallow(Pick(v, position).value, ctx, h)
  {
    hide Shallow;
    PartsAreShallow(v, ctx, h - 1);
    if Pick(v, position).Some? {
      var picked := Pick(v, position).value;
      if v.List? { ShallowWider(picked, ctx, h - 1, h); } else { LeafIsShallow(picked, v, ctx, h); }
    }
  }

  lemma ShallowWider(n: Node, ctx: Context, h: nat, h': nat)
    requires Shallow(n, ctx, h) && h <= h'
    ensures Shallow(n, ctx, h')
  {
    hide ConditionFree, Literal, NestsWithin;
    NestsWider(n, h, h');
  }

  lemma SplitAtDepths(arg: Node, ctx: Context, depth: nat, depth': nat, h: nat)
    requires h > 0 && Shallow(arg, ctx, h - 1) && Room(depth, depth', h)
    ensures var r := ResolveSplit(arg, ctx, depth);
            ResolveSplit(arg, ctx, depth') == r && (r.Known? ==> Shallow(r.value, ctx, h))
    decreases h, 1
  {
    hide Resolve, Shallow, SplitText;
    PartsAreShallow(arg, ctx, h - 1);
    if Takes(arg, 2) {
      DepthIsIrrelevant(arg.items[1], ctx, depth + 1, depth' + 1, h - 1);
      var r := ResolveSplit(arg, ctx, depth);
      if r.Known? { TextsAreShallow(r.value, arg, ctx, h); }
    }
  }

  lemma TextsAreShallow(list: Node, other: Node, ctx: Context, h: nat)
    requires list.List? && (forall i :: 0 <= i < |list.items| ==> list.items[i].Leaf?) && h > 0 && Shallow(other, ctx, h - 1)
    ensures Shallow(list, ctx, h)
  {
    hide Literal;
    forall i | 0 <= i < |list.items|
      ensures NestsWithin(list.items[i], h) && ConditionFree(list.items[i])
    {
      assert list.items[i].Leaf?;
    }
  }

  lemma {:induction false} SlotsAtDepths(st: SubTemplate, local: seq<Entry>, ctx: Context, depth: nat, depth': nat, h: nat)
    requires h > 0 && Room(depth, depth', h) && forall i :: 0 <= i < |local| ==> Shallow(local[i].value, ctx, h - 1)
    ensures SubPieces(st, local, ctx, depth) == SubPieces(st, local, ctx, depth')
    decreases h, 1, st
  {
    hide Shallow, SlotValue, PieceText;
    if st.Slot? {
      SlotsAtDepths(st.rest, local, ctx, depth, depth', h);
      SlotAtDepths(st.name, local, ctx, depth, depth', h);
    }
  }

  lemma SlotAtDepths(name: string, local: seq<Entry>, ctx: Context, depth: nat, depth': nat, h: nat)
    requires h > 0 && Room(depth, depth', h) && forall i :: 0 <= i < |local| ==> Shallow(local[i].value, ctx, h - 1)
    ensures SlotValue(name, local, ctx, depth) == SlotValue(name, local, ctx, depth')
    decreases h, 0
  {
    hide Shallow, Resolve, ResolveRef, ResolveGetAtt, FirstDot;
    if Lookup(local, name).Some? { DepthIsIrrelevant(Lookup(local, name).value, ctx, depth + 1, depth' + 1, h - 1); }
  }

  lemma SubAtDepths(arg: Node, ctx: Context, depth: nat, depth': nat, h: nat)
    requires h > 0 && Shallow(arg, ctx, h - 1) && Room(depth, depth', h)
    ensures var r := ResolveSub(arg, ctx, depth);
            ResolveSub(arg, ctx, depth') == r && (r.Known? ==> Shallow(r.value, ctx, h))
    decreases h, 1
  {
    hide Shallow, SubPieces, ParseSub;
    if SubParts(arg).Some? {
      var local := SubParts(arg).value.1;
      LocalsAreShallow(arg, ctx, h);
      SlotsAtDepths(ParseSub(SubParts(arg).value.0), local, ctx, depth, depth', h);
      var r := ResolveSub(arg, ctx, depth);
      if r.Known? { LeafIsShallow(r.value, arg, ctx, h); }
    }
  }

  lemma LocalsAreShallow(arg: Node, ctx: Context, h: nat)
    requires h > 0 && Shallow(arg, ctx, h - 1) && SubParts(arg).Some?
    ensures forall i :: 0 <= i < |SubParts(arg).value.1| ==> Shallow(SubParts(arg).value.1[i].value, ctx, h - 1)
  {
    hide Shallow;
    if arg.List? {
      PartsAreShallow(arg, ctx, h - 1);
      var locals := arg.items[1];
      PartsAreShallow(locals, ctx, h - 1);
      if IsCall(locals) { ShallowWider(Arg(locals), ctx, h - 2, h - 1); }
    }
  }

  // ----- conditions -----

  /** Evaluating the expression goes at most `h` levels down, names followed along the path. */
  predicate FitsWithin(e: Node, ctx: Context, h: nat, seen: set<string>)
    decreases h
  {
    IsCall(e) ==>
      var arg := Arg(e);
      match Callee(e)
      case ConditionFn => arg.Leaf? && arg.scalar.Str? ==> h > 0 && NameFits(arg.scalar.s, ctx, h - 1, seen)
      case EqualsFn => Takes(arg, 2) ==> h > 0 && NestsWithin(arg.items[0], h - 1) && NestsWithin(arg.items[1], h - 1)
      case NotFn => Takes(arg, 1) ==> h > 0 && FitsWithin(arg.items[0], ctx, h - 1, seen)
      case AndFn => arg.List? ==> h > 0 && forall i :: 0 <= i < |arg.items| ==> FitsWithin(arg.items[i], ctx, h - 1, seen)
      case OrFn => arg.List? ==> h > 0 && forall i :: 0 <= i < |arg.items| ==> FitsWithin(arg.items[i], ctx, h - 1, seen)
      case _ => true
  }

  predicate NameFits(c: string, ctx: Context, h: nat, seen: set<string>)
    decreases h
  {
    c !in seen && Defined(ctx, c) ==> h > 0 && FitsWithin(ctx.conditions[c], ctx, h - 1, seen + {c})
  }

  lemma EqualsIsWithin(arg: Node, ctx: Context, depth: nat, h: nat)
    requires Takes(arg, 2) ==> Shallow(arg.items[0], ctx, h) && Shallow(arg.items[1], ctx, h)
    requires depth + h <= MAX_DEPTH
    ensures EvaluateEquals(arg, ctx, depth) == EvaluateEquals(arg, ctx, 0)
  {
    hide Resolve, Shallow;
    if Takes(arg, 2) {
      DepthIsIrrelevant(arg.items[0], ctx, depth, 0, h);
      DepthIsIrrelevant(arg.items[1], ctx, depth, 0, h);
    }
  }

  lemma NothingToCompare(arg: Node, ctx: Context, depth: nat)
    requires !Takes(arg, 2)
    ensures EvaluateEquals(arg, ctx, depth) == EvaluateEquals(arg, ctx, 0)
  {
  }

  /** What fits stays within the depth limit. */
  lemma {:induction false} FittingIsWithin(e: Node, ctx: Context, depth: nat, h: nat, seen: set<string>)
    requires PlainSystem(ctx) && PlainOperands(e) && Literal(ctx.mappings) && FitsWithin(e, ctx, h, seen) && depth + h <= MAX_DEPTH
    ensures WithinDepth(e, ctx, depth, seen)
    decreases h, 1
  {
    hide FnOf, ConditionFree, Literal, NameFits, NameWithinDepth, EvaluateEquals, NestsWithin;
    if IsCall(e) {
      var arg := Arg(e);
      if Callee(e).ConditionFn? {
        if arg.Leaf? && arg.scalar.Str? { FittingNameIsWithin(arg.scalar.s, ctx, depth + 1, h - 1, seen); }
      } else if Callee(e).EqualsFn? {
        if Takes(arg, 2) { EqualsIsWithin(arg, ctx, depth + 1, h - 1); } else { NothingToCompare(arg, ctx, depth + 1); }
      } else if Callee(e).NotFn? || Callee(e).AndFn? || Callee(e).OrFn? {
        if arg.List? && (Callee(e).NotFn? ==> Takes(arg, 1)) {
          PartsArePlain(e);
          forall i | 0 <= i < |arg.items|
            ensures WithinDepth(arg.items[i], ctx, depth + 1, seen)
          {
            FittingIsWithin(arg.items[i], ctx, depth + 1, h - 1, seen);
          }
        }
      }
    }
  }

  lemma {:induction false} FittingNameIsWithin(c: string, ctx: Context, depth: nat, h: nat, seen: set<string>)
    requires PlainSystem(ctx) && Literal(ctx.mappings) && NameFits(c, ctx, h, seen) && depth + h <= MAX_DEPTH
    ensures NameWithinDepth(c, ctx, depth, seen)
    decreases h, 0
  {
    hide FitsWithin, WithinDepth, Literal, ConditionFree;
    if c !in seen && Defined(ctx, c) { FittingIsWithin(ctx.conditions[c], ctx, depth + 1, h - 1, seen + {c}); }
  }

  // ----- a bound from sizes -----

  /** The levels that evaluation can still go down: each open condition costs its own nesting and
      one level for its name. */
  function Levels(open: nat, m: nat): nat {
    open * (m + 1)
  }

  lemma LevelsStep(open: nat, m: nat)
    requires open > 0
    ensures Levels(open, m) == Levels(open - 1, m) + m + 1
  {
  }

  lemma {:induction false} SmallExpressionFits(e: Node, ctx: Context, j: nat, m: nat, h: nat, seen: set<string>)
    requires (forall c :: c in ctx.conditions ==> NestsWithin(ctx.conditions[c], m)) && NestsWithin(e, j)
    requires h >= j + Levels(|ctx.conditions.Keys - seen|, m)
    ensures FitsWithin(e, ctx, h, seen)
    decreases h, 1
  {
    hide FnOf, Levels, NameFits;
    if IsCall(e) {
      var arg := Arg(e);
      assert j > 0 && NestsWithin(arg, j - 1);
      if Callee(e).ConditionFn? {
        if arg.Leaf? && arg.scalar.Str? { SmallNameFits(arg.scalar.s, ctx, m, h - 1, seen); }
      } else if Callee(e).EqualsFn? {
        if Takes(arg, 2) {
          NestsWider(arg.items[0], j - 1, h - 1);
          NestsWider(arg.items[1], j - 1, h - 1);
        }
      } else if arg.List? {
        forall i | 0 <= i < |arg.items|
          ensures FitsWithin(arg.items[i], ctx, h - 1, seen)
        {
          SmallExpressionFits(arg.items[i], ctx, j - 1, m, h - 1, seen);
        }
      }
    }
  }

  lemma {:induction false} SmallNameFits(c: string, ctx: Context, m: nat, h: nat, seen: set<string>)
    requires forall c :: c in ctx.conditions ==> NestsWithin(ctx.conditions[c], m)
    requires h >= Levels(|ctx.conditions.Keys - seen|, m)
    ensures NameFits(c, ctx, h, seen)
    decreases h, 0
  {
    hide FitsWithin, Levels, NestsWithin;
    if c !in seen && Defined(ctx, c) {
      FewerLeft(ctx, seen, c);
      assert ctx.conditions.Keys - (seen + {c}) == ctx.conditions.Keys - seen - {c};
      LevelsStep(|ctx.conditions.Keys - seen|, m);
      SmallExpressionFits(ctx.conditions[c], ctx, m, m, h - 1, seen + {c});
    }
  }

  // ----- main results -----

  /** A condition whose evaluation fits into the depth limit, as the template shows, is never cut
      short. */
  lemma ShallowConditionsAreExact(ctx: Context, c: string, rho: Valuation)
    requires PlainSystem(ctx) && Literal(ctx.mappings) && forall d :: d in ctx.conditions ==> NameFits(d, ctx, MAX_DEPTH, {})
    ensures ConditionValuation(ctx)(c) == Equation(c, ctx, ConditionValuation(ctx))
    ensures (forall d :: VerdictRefines(Equation(d, ctx, rho), rho(d))) ==> VerdictRefines(ConditionValuation(ctx)(c), rho(c))
  {
    hide NameFits, NameWithinDepth, PlainSystem, Literal, ConditionValuation, Equation;
    forall d
      ensures NameWithinDepth(d, ctx, 0, {})
    {
      if d in ctx.conditions { FittingNameIsWithin(d, ctx, 0, MAX_DEPTH, {}); } else { UndefinedIsWithin(d, ctx); }
    }
    ConditionsAreTheLeastFixedPoint(ctx, c, rho);
  }

  lemma UndefinedIsWithin(c: string, ctx: Context)
    requires c !in ctx.conditions
    ensures NameWithinDepth(c, ctx, 0, {})
  {
  }

  /** A few conditions that nest a little always fit: with `k` conditions nesting within `m`, it is
      enough that `k * (m + 1)` is no more than the limit. */
  lemma SmallSystemsFit(ctx: Context, m: nat)
    requires (forall c :: c in ctx.conditions ==> NestsWithin(ctx.conditions[c], m)) && |ctx.conditions.Keys| * (m + 1) <= MAX_DEPTH
    ensures forall c :: c in ctx.conditions ==> NameFits(c, ctx, MAX_DEPTH, {})
  {
    hide NameFits, NestsWithin;
    assert ctx.conditions.Keys - {} == ctx.conditions.Keys;
    forall c | c in ctx.conditions
      ensures NameFits(c, ctx, MAX_DEPTH, {})
    {
      SmallNameFits(c, ctx, m, MAX_DEPTH, {});
    }
  }
}
