/** More information, or more room to recurse, only ever refines an unknown. */
module Monotonicity {
  import opened Templates
  import opened SubTemplates
  import opened Intrinsics

  ghost predicate Refines(r: Resolution, r': Resolution) {
    r.Unknown? || r == r'
  }

  predicate VerdictRefines(v: Verdict, v': Verdict) {
    v.Undecided? || v == v'
  }

  predicate UsesConditions(fn: Fn) {
    fn.IfFn? || fn.ConditionFn? || fn.AndFn? || fn.OrFn? || fn.NotFn? || fn.EqualsFn?
  }

  /** No condition is consulted anywhere inside the node. */
  predicate ConditionFree(n: Node)
    decreases n
  {
    match n
    case Leaf(_) => true
    case List(items) => forall i :: 0 <= i < |items| ==> ConditionFree(items[i])
    case Dict(entries) =>
      && (forall i :: 0 <= i < |entries| ==> ConditionFree(entries[i].value))
      && (IsCall(n) ==> !UsesConditions(Callee(n)))
  }

  /** `ctx'` supplies more parameters than `ctx`, none of them one that had a default.
      With `plain`, only nodes free of conditions are compared, so conditions may differ. */
  ghost predicate Informs(ctx: Context, ctx': Context, plain: bool) {
    && ctx' == ctx.(supplied := ctx'.supplied, conditions := ctx'.conditions)
    && (forall p :: p in ctx.supplied ==> p in ctx'.supplied && ctx'.supplied[p] == ctx.supplied[p])
    && (forall p :: p in ctx'.supplied && p !in ctx.supplied ==> p !in ctx.defaults)
    && (plain ==> ConditionFree(ctx.mappings))
    && (!plain ==> ctx'.conditions == ctx.conditions)
  }

  /** The refinement, together with the fact that a known result stays free of conditions. */
  ghost predicate Improves(r: Resolution, r': Resolution, plain: bool) {
    Refines(r, r') && (plain && r.Known? ==> ConditionFree(r.value))
  }

  lemma {:induction false} ResolveImproves(n: Node, ctx: Context, ctx': Context, depth: nat, depth': nat, plain: bool)
    requires Informs(ctx, ctx', plain) && depth' <= depth && (plain ==> ConditionFree(n))
    ensures Improves(Resolve(n, ctx, depth), Resolve(n, ctx', depth'), plain)
    decreases Remaining(depth), 2
  {
    if depth <= MAX_DEPTH && IsCall(n) {
      CallImproves(n, ctx, ctx', depth, depth', plain);
    }
  }

  lemma {:induction false} CallImproves(n: Node, ctx: Context, ctx': Context, depth: nat, depth': nat, plain: bool)
    requires Informs(ctx, ctx', plain) && depth' <= depth <= MAX_DEPTH && (plain ==> ConditionFree(n)) && IsCall(n)
    ensures Improves(ResolveCall(n, ctx, depth), ResolveCall(n, ctx', depth'), plain)
    decreases Remaining(depth), 1, MAX_DEPTH + 1
  {
    hide Resolve, ResolveCall, UsesConditions, Informs, FnOf;
    assert plain ==> ConditionFree(Arg(n)) && !UsesConditions(Callee(n));
    if UsesConditions(Callee(n)) { VerdictImproves(n, ctx, ctx', depth, depth'); }
    else if Gathers(Callee(n)) { GatheringImproves(n, ctx, ctx', depth, depth', plain); }
    else { LookupImproves(n, ctx, ctx', depth, depth', plain); }
  }

  /** The functions that resolve their arguments first. */
  predicate Gathers(fn: Fn) {
    fn.FindInMapFn? || fn.JoinFn? || fn.SelectFn? || fn.SplitFn? || fn.SubFn?
  }

  lemma VerdictImproves(n: Node, ctx: Context, ctx': Context, depth: nat, depth': nat)
    requires Informs(ctx, ctx', false) && depth' <= depth <= MAX_DEPTH && IsCall(n) && UsesConditions(Callee(n))
    ensures Refines(ResolveCall(n, ctx, depth), ResolveCall(n, ctx', depth'))
    decreases Remaining(depth), 1, MAX_DEPTH
  {
    hide Resolve, EvaluateCondition, EvaluateExpression, ResolveIf, Informs, FnOf;
    match Callee(n)
    case IfFn => IfImproves(Arg(n), ctx, ctx', depth, depth');
    case ConditionFn => ConditionImproves(Arg(n), ctx, ctx', depth + 1, depth' + 1, {});
    case AndFn => ExpressionImproves(n, ctx, ctx', depth + 1, depth' + 1, {});
    case OrFn => ExpressionImproves(n, ctx, ctx', depth + 1, depth' + 1, {});
    case NotFn => ExpressionImproves(n, ctx, ctx', depth + 1, depth' + 1, {});
    case EqualsFn => ExpressionImproves(n, ctx, ctx', depth + 1, depth' + 1, {});
  }

  lemma GatheringImproves(n: Node, ctx: Context, ctx': Context, depth: nat, depth': nat, plain: bool)
    requires Informs(ctx, ctx', plain) && depth' <= depth <= MAX_DEPTH && IsCall(n) && Gathers(Callee(n))
    requires plain ==> ConditionFree(Arg(n))
    ensures Improves(ResolveCall(n, ctx, depth), ResolveCall(n, ctx', depth'), plain)
    decreases Remaining(depth), 1, MAX_DEPTH
  {
    hide Resolve, ResolveFindInMap, ResolveJoin, ResolveSelect, ResolveSplit, ResolveSub, Informs, FnOf, ConditionFree;
    var arg := Arg(n);
    match Callee(n)
    case FindInMapFn => FindInMapImproves(arg, ctx, ctx', depth, depth', plain);
    case JoinFn => JoinImproves(arg, ctx, ctx', depth, depth', plain);
    case SelectFn => SelectImproves(arg, ctx, ctx', depth, depth', plain);
    case SplitFn => SplitImproves(arg, ctx, ctx', depth, depth', plain);
    case SubFn => SubImproves(arg, ctx, ctx', depth, depth', plain);
  }

  lemma LookupImproves(n: Node, ctx: Context, ctx': Context, depth: nat, depth': nat, plain: bool)
    requires Informs(ctx, ctx', plain) && depth' <= depth <= MAX_DEPTH && IsCall(n) && !Gathers(Callee(n)) && !UsesConditions(Callee(n))
    ensures Improves(ResolveCall(n, ctx, depth), ResolveCall(n, ctx', depth'), plain)
  {
    hide FnOf, PseudoOf, AttributeName;
  }

  lemma {:induction false} MapKeysImprove(parts: seq<Node>, ctx: Context, ctx': Context, depth: nat, depth': nat, plain: bool)
    requires Informs(ctx, ctx', plain) && depth' <= depth <= MAX_DEPTH
    requires plain ==> forall i :: 0 <= i < |parts| ==> ConditionFree(parts[i])
    ensures MapKeys(parts, ctx, depth).Some? ==> MapKeys(parts, ctx', depth') == MapKeys(parts, ctx, depth)
    decreases Remaining(depth), 0, |parts|
  {
    hide Resolve;
    if parts != [] {
      ResolveImproves(parts[0], ctx, ctx', depth + 1, depth' + 1, plain);
      MapKeysImprove(parts[1..], ctx, ctx', depth, depth', plain);
    }
  }

  lemma FindInMapImproves(arg: Node, ctx: Context, ctx': Context, depth: nat, depth': nat, plain: bool)
    requires Informs(ctx, ctx', plain) && depth' <= depth <= MAX_DEPTH && (plain ==> ConditionFree(arg))
    ensures Improves(ResolveFindInMap(arg, ctx, depth), ResolveFindInMap(arg, ctx', depth'), plain)
    decreases Remaining(depth), 0, MAX_DEPTH
  {
    hide MapKeys, Descend;
    if arg.List? && |arg.items| >= 3 {
      MapKeysImprove(arg.items[..3], ctx, ctx', depth, depth', plain);
      if plain && MapKeys(arg.items[..3], ctx, depth).Some? {
        DescendIsFree(ctx.mappings, MapKeys(arg.items[..3], ctx, depth).value.texts);
      }
    }
  }

  lemma {:induction false} DescendIsFree(n: Node, keys: seq<string>)
    requires ConditionFree(n)
    ensures Descend(n, keys).Some? ==> ConditionFree(Descend(n, keys).value)
    decreases |keys|
  {
    if keys != [] && n.Dict? && Lookup(n.entries, keys[0]).Some? {
      DescendIsFree(Lookup(n.entries, keys[0]).value, keys[1..]);
    }
  }

  lemma IfImproves(arg: Node, ctx: Context, ctx': Context, depth: nat, depth': nat)
    requires Informs(ctx, ctx', false) && depth' <= depth <= MAX_DEPTH
    ensures Refines(ResolveIf(arg, ctx, depth), ResolveIf(arg, ctx', depth'))
    decreases Remaining(depth), 0, 0
  {
    hide Resolve, EvaluateCondition;
    if Takes(arg, 3) {
      ConditionImproves(arg.items[0], ctx, ctx', depth + 1, depth' + 1, {});
      ResolveImproves(arg.items[1], ctx, ctx', depth + 1, depth' + 1, false);
      ResolveImproves(arg.items[2], ctx, ctx', depth + 1, depth' + 1, false);
    }
  }

  lemma {:induction false} JoinPiecesImprove(parts: seq<Node>, ctx: Context, ctx': Context, depth: nat, depth': nat, plain: bool)
    requires Informs(ctx, ctx', plain) && depth' <= depth <= MAX_DEPTH
    requires plain ==> forall i :: 0 <= i < |parts| ==> ConditionFree(parts[i])
    ensures JoinPieces(parts, ctx, depth).Some? ==> JoinPieces(parts, ctx', depth') == JoinPieces(parts, ctx, depth)
    decreases Remaining(depth), 0, |parts|
  {
    hide Resolve;
    if parts != [] {
      ResolveImproves(parts[0], ctx, ctx', depth + 1, depth' + 1, plain);
      JoinPiecesImprove(parts[1..], ctx, ctx', depth, depth', plain);
    }
  }

  lemma JoinImproves(arg: Node, ctx: Context, ctx': Context, depth: nat, depth': nat, plain: bool)
    requires Informs(ctx, ctx', plain) && depth' <= depth <= MAX_DEPTH && (plain ==> ConditionFree(arg))
    ensures Improves(ResolveJoin(arg, ctx, depth), ResolveJoin(arg, ctx', depth'), plain)
    decreases Remaining(depth), 1, 0
  {
    hide JoinPieces, Intersperse, JoinList;
    if Takes(arg, 2) {
      JoinListImproves(arg.items[1], ctx, ctx', depth, depth', plain);
      var parts := JoinList(arg.items[1], ctx, depth);
      if parts.List? {
        JoinPiecesImprove(parts.items, ctx, ctx', depth, depth', plain);
      }
    }
  }

  lemma JoinListImproves(parts: Node, ctx: Context, ctx': Context, depth: nat, depth': nat, plain: bool)
    requires Informs(ctx, ctx', plain) && depth' <= depth <= MAX_DEPTH && (plain ==> ConditionFree(parts))
    ensures JoinList(parts, ctx, depth).List? ==> JoinList(parts, ctx', depth') == JoinList(parts, ctx, depth)
    ensures plain ==> ConditionFree(JoinList(parts, ctx, depth))
    decreases Remaining(depth), 0, 0
  {
    ResolveImproves(parts, ctx, ctx', depth + 1, depth' + 1, plain);
  }

  lemma SelectImproves(arg: Node, ctx: Context, ctx': Context, depth: nat, depth': nat, plain: bool)
    requires Informs(ctx, ctx', plain) && depth' <= depth <= MAX_DEPTH && (plain ==> ConditionFree(arg))
    ensures Improves(ResolveSelect(arg, ctx, depth), ResolveSelect(arg, ctx', depth'), plain)
    decreases Remaining(depth), 0, 0
  {
    hide Resolve;
    if Takes(arg, 2) {
      ResolveImproves(arg.items[0], ctx, ctx', depth + 1, depth' + 1, plain);
      ResolveImproves(arg.items[1], ctx, ctx', depth + 1, depth' + 1, plain);
    }
  }

  lemma SplitImproves(arg: Node, ctx: Context, ctx': Context, depth: nat, depth': nat, plain: bool)
    requires Informs(ctx, ctx', plain) && depth' <= depth <= MAX_DEPTH && (plain ==> ConditionFree(arg))
    ensures Improves(ResolveSplit(arg, ctx, depth), ResolveSplit(arg, ctx', depth'), plain)
    decreases Remaining(depth), 0, 0
  {
    hide Resolve, SplitText;
    if Takes(arg, 2) {
      ResolveImproves(arg.items[1], ctx, ctx', depth + 1, depth' + 1, plain);
      var r := ResolveSplit(arg, ctx, depth);
      if r.Known? {
        forall i | 0 <= i < |r.value.items|
          ensures ConditionFree(r.value.items[i])
        {
          assert r.value.items[i].Leaf?;
        }
      }
    }
  }

  lemma {:induction false} SubPiecesImprove(st: SubTemplate, local: seq<Entry>, ctx: Context, ctx': Context, depth: nat, depth': nat, plain: bool)
    requires Informs(ctx, ctx', plain) && depth' <= depth <= MAX_DEPTH
    requires plain ==> forall i :: 0 <= i < |local| ==> ConditionFree(local[i].value)
    ensures SubPieces(st, local, ctx, depth).Some? ==> SubPieces(st, local, ctx', depth') == SubPieces(st, local, ctx, depth)
    decreases Remaining(depth), 0, 1, st
  {
    hide SlotValue;
    if st.Slot? {
      SlotImproves(st.name, local, ctx, ctx', depth, depth', plain);
      SubPiecesImprove(st.rest, local, ctx, ctx', depth, depth', plain);
    }
  }

  lemma SlotImproves(name: string, local: seq<Entry>, ctx: Context, ctx': Context, depth: nat, depth': nat, plain: bool)
    requires Informs(ctx, ctx', plain) && depth' <= depth <= MAX_DEPTH
    requires plain ==> forall i :: 0 <= i < |local| ==> ConditionFree(local[i].value)
    ensures Refines(SlotValue(name, local, ctx, depth), SlotValue(name, local, ctx', depth'))
    decreases Remaining(depth), 0, 0
  {
    hide Resolve, AttributeName;
    if Lookup(local, name).Some? {
      ResolveImproves(Lookup(local, name).value, ctx, ctx', depth + 1, depth' + 1, plain);
    }
  }

  lemma SubImproves(arg: Node, ctx: Context, ctx': Context, depth: nat, depth': nat, plain: bool)
    requires Informs(ctx, ctx', plain) && depth' <= depth <= MAX_DEPTH && (plain ==> ConditionFree(arg))
    ensures Improves(ResolveSub(arg, ctx, depth), ResolveSub(arg, ctx', depth'), plain)
    decreases Remaining(depth), 1, 0
  {
    hide SubPieces, ParseSub;
    match SubParts(arg)
    case None =>
    case Some((template, local)) =>
      assert plain && arg.List? ==> ConditionFree(arg.items[1]);
      SubPiecesImprove(ParseSub(template), local, ctx, ctx', depth, depth', plain);
  }

  lemma {:induction false} ConditionImproves(name: Node, ctx: Context, ctx': Context, depth: nat, depth': nat, seen: set<string>)
    requires Informs(ctx, ctx', false) && depth' <= depth
    ensures VerdictRefines(EvaluateCondition(name, ctx, depth, seen), EvaluateCondition(name, ctx', depth', seen))
    decreases Remaining(depth), 2
  {
    hide EvaluateExpression;
    if depth <= MAX_DEPTH && name.Leaf? && name.scalar.Str? && Defined(ctx, name.scalar.s) {
      ExpressionImproves(ctx.conditions[name.scalar.s], ctx, ctx', depth + 1, depth' + 1, seen + {name.scalar.s});
    }
  }

  lemma {:induction false} ExpressionImproves(e: Node, ctx: Context, ctx': Context, depth: nat, depth': nat, seen: set<string>)
    requires Informs(ctx, ctx', false) && depth' <= depth
    ensures VerdictRefines(EvaluateExpression(e, ctx, depth, seen), EvaluateExpression(e, ctx', depth', seen))
    decreases Remaining(depth), 2
  {
    hide EvaluateCondition, EvaluateEach, EvaluateEquals, EvaluateNot, KleeneAnd, KleeneOr, Informs, FnOf;
    if depth <= MAX_DEPTH && IsCall(e) {
      var arg := Arg(e);
      match Callee(e)
      case ConditionFn => ConditionImproves(arg, ctx, ctx', depth + 1, depth' + 1, seen);
      case EqualsFn => EqualsImproves(arg, ctx, ctx', depth + 1, depth' + 1);
      case NotFn => NotImproves(arg, ctx, ctx', depth + 1, depth' + 1, seen);
      case AndFn => if arg.List? { EachImproves(arg.items, ctx, ctx', depth + 1, depth' + 1, seen); }
      case OrFn => if arg.List? { EachImproves(arg.items, ctx, ctx', depth + 1, depth' + 1, seen); }
      case _ =>
    }
  }

  lemma EqualsImproves(arg: Node, ctx: Context, ctx': Context, depth: nat, depth': nat)
    requires Informs(ctx, ctx', false) && depth' <= depth
    ensures VerdictRefines(EvaluateEquals(arg, ctx, depth), EvaluateEquals(arg, ctx', depth'))
    decreases Remaining(depth), 3
  {
    hide Resolve;
    if Takes(arg, 2) {
      ResolveImproves(arg.items[0], ctx, ctx', depth, depth', false);
      ResolveImproves(arg.items[1], ctx, ctx', depth, depth', false);
    }
  }

  lemma NotImproves(arg: Node, ctx: Context, ctx': Context, depth: nat, depth': nat, seen: set<string>)
    requires Informs(ctx, ctx', false) && depth' <= depth
    ensures VerdictRefines(EvaluateNot(arg, ctx, depth, seen), EvaluateNot(arg, ctx', depth', seen))
    decreases Remaining(depth), 3
  {
    hide EvaluateExpression;
    if Takes(arg, 1) { ExpressionImproves(arg.items[0], ctx, ctx', depth, depth', seen); }
  }

  lemma {:induction false} EachImproves(items: seq<Node>, ctx: Context, ctx': Context, depth: nat, depth': nat, seen: set<string>)
    requires Informs(ctx, ctx', false) && depth' <= depth
    ensures var vs, vs' := EvaluateEach(items, ctx, depth, seen), EvaluateEach(items, ctx', depth', seen);
            VerdictRefines(KleeneAnd(vs), KleeneAnd(vs')) && VerdictRefines(KleeneOr(vs), KleeneOr(vs'))
    decreases Remaining(depth), 3
  {
    var vs, vs' := EvaluateEach(items, ctx, depth, seen), EvaluateEach(items, ctx', depth', seen);
    forall i | 0 <= i < |items|
      ensures VerdictRefines(vs[i], vs'[i])
    {
      ExpressionImproves(items[i], ctx, ctx', depth, depth', seen);
    }
    ConnectivesImprove(vs, vs');
  }

  /** Kleene conjunction and disjunction are monotone in every operand. */
  lemma ConnectivesImprove(vs: seq<Verdict>, vs': seq<Verdict>)
    requires |vs| == |vs'| && forall i :: 0 <= i < |vs| ==> VerdictRefines(vs[i], vs'[i])
    ensures VerdictRefines(KleeneAnd(vs), KleeneAnd(vs'))
    ensures VerdictRefines(KleeneOr(vs), KleeneOr(vs'))
  {
    forall i | 0 <= i < |vs| && vs[i] != Undecided
      ensures vs'[i] == vs[i] && vs[i] in vs'
    {
    }
    if KleeneAnd(vs) == Yes {
      forall i | 0 <= i < |vs| ensures vs'[i] == Yes { assert vs[i] in vs; }
    }
    if KleeneOr(vs) == No {
      forall i | 0 <= i < |vs| ensures vs'[i] == No { assert vs[i] in vs; }
    }
  }

  // ----- main results -----

  /** Supplying parameters that had neither a value nor a default, or starting nearer the
      surface, keeps every established result and only refines unknowns. */
  lemma ResolutionIsMonotone(n: Node, ctx: Context, ctx': Context, depth: nat, depth': nat)
    requires Informs(ctx, ctx', false) && depth' <= depth
    ensures var r, r' := Resolve(n, ctx, depth), Resolve(n, ctx', depth'); r.Unknown? || r' == r
  {
    ResolveImproves(n, ctx, ctx', depth, depth', false);
  }

  lemma VerdictIsMonotone(name: Node, ctx: Context, ctx': Context, depth: nat, depth': nat)
    requires Informs(ctx, ctx', false) && depth' <= depth
    ensures var v, v' := EvaluateCondition(name, ctx, depth, {}), EvaluateCondition(name, ctx', depth', {});
            v.Undecided? || v' == v
  {
    ConditionImproves(name, ctx, ctx', depth, depth', {});
  }

  /** What a node free of conditions resolves to does not depend on the conditions section. */
  lemma ConditionsAreIrrelevant(n: Node, ctx: Context, conditions: map<string, Node>, depth: nat)
    requires ConditionFree(n) && ConditionFree(ctx.mappings)
    ensures Refines(Resolve(n, ctx, depth), Resolve(n, ctx.(conditions := conditions), depth))
    ensures Refines(Resolve(n, ctx.(conditions := conditions), depth), Resolve(n, ctx, depth))
  {
    var ctx' := ctx.(conditions := conditions);
    ResolveImproves(n, ctx, ctx', depth, depth, true);
    ResolveImproves(n, ctx', ctx, depth, depth, true);
  }
}
