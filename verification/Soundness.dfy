/** Whatever resolution establishes is what every deployment finds. */
module Soundness {
  import opened Templates
  import opened SubTemplates
  import opened Intrinsics
  import opened Monotonicity
  import opened Deployment

  /** A result agrees with a deployed value.  A known result is a term with the same meaning. */
  ghost predicate Agrees(r: Resolution, m: Value, ctx: Context, env: Environment, trust: Trust) {
    match r
    case Known(v, _) => Lawful(v, ctx, trust) && Means(v, ctx, env) == m
    case Reference(id, attribute) => m == env.attribute(id, attribute)
    case Omitted => m == Absent
    case Unknown(_, _) => true
  }

  predicate VerdictAgrees(v: Verdict, holds: bool) {
    (v.Yes? ==> holds) && (v.No? ==> !holds)
  }

  lemma {:induction false} ResolveAgrees(n: Node, ctx: Context, env: Environment, trust: Trust, depth: nat)
    requires Setting(ctx, env, trust) && Lawful(n, ctx, trust)
    ensures Agrees(Resolve(n, ctx, depth), Means(n, ctx, env), ctx, env, trust)
    decreases Remaining(depth), 2
  {
    if depth <= MAX_DEPTH && IsCall(n) {
      CallAgrees(n, ctx, env, trust, depth);
    }
  }

  lemma {:induction false} CallAgrees(n: Node, ctx: Context, env: Environment, trust: Trust, depth: nat)
    requires Setting(ctx, env, trust) && Lawful(n, ctx, trust) && IsCall(n) && depth <= MAX_DEPTH
    ensures Agrees(ResolveCall(n, ctx, depth), CallMeans(n, ctx, env), ctx, env, trust)
    decreases Remaining(depth), 1
  {
    hide Resolve, EvaluateCondition, EvaluateExpression, ResolveFindInMap, ResolveIf, ResolveJoin, ResolveSelect,
      ResolveSplit, ResolveSub, Holds, FindInMapMeans, JoinMeans, SelectMeans, SplitMeans, SubMeans, RefMeans,
      GetAttMeans, ResolveRef, ResolveGetAtt, SubParts;
    var arg := Arg(n);
    assert Lawful(arg, ctx, trust) && LawfulCall(Callee(n), arg, ctx, trust);
    match Callee(n)
    case RefFn => RefAgrees(arg, ctx, env, trust);
    case GetAttFn => GetAttAgrees(arg, ctx, env, trust);
    case FindInMapFn => FindInMapAgrees(n, ctx, env, trust, depth);
    case IfFn => IfAgrees(n, ctx, env, trust, depth);
    case JoinFn => JoinAgrees(n, ctx, env, trust, depth);
    case SelectFn => SelectAgrees(n, ctx, env, trust, depth);
    case SplitFn => SplitAgrees(n, ctx, env, trust, depth);
    case SubFn => SubAgrees(n, ctx, env, trust, depth);
    case ConditionFn => ConditionAgrees(arg, ctx, env, trust, depth + 1, {});
    case AndFn => ExpressionAgrees(n, ctx, env, trust, depth + 1, {});
    case OrFn => ExpressionAgrees(n, ctx, env, trust, depth + 1, {});
    case NotFn => ExpressionAgrees(n, ctx, env, trust, depth + 1, {});
    case EqualsFn => ExpressionAgrees(n, ctx, env, trust, depth + 1, {});
    case _ =>
  }

  lemma RefAgrees(arg: Node, ctx: Context, env: Environment, trust: Trust)
    requires AgreesOnInputs(ctx, env) && Warrants(ctx, env, trust) && (arg.Leaf? && arg.scalar.Str? ==> LawfulName(arg.scalar.s, ctx, trust))
    ensures Agrees(ResolveRef(arg, ctx), RefMeans(arg, ctx, env), ctx, env, trust)
  {
    hide PseudoOf, SatisfiesConditions;
  }

  lemma GetAttAgrees(arg: Node, ctx: Context, env: Environment, trust: Trust)
    ensures Agrees(ResolveGetAtt(arg, ctx), GetAttMeans(arg, ctx, env), ctx, env, trust)
  {
    hide AttributeName;
  }

  lemma {:induction false} MapKeysAgree(parts: seq<Node>, ctx: Context, env: Environment, trust: Trust, depth: nat)
    requires Setting(ctx, env, trust) && depth <= MAX_DEPTH
    requires forall i :: 0 <= i < |parts| ==> Lawful(parts[i], ctx, trust)
    ensures MapKeys(parts, ctx, depth).Some? ==>
              forall i :: 0 <= i < |parts| ==>
                Means(parts[i], ctx, env) == Plain(Str(MapKeys(parts, ctx, depth).value.texts[i]))
    decreases Remaining(depth), 0, |parts|
  {
    hide Resolve, Lawful;
    if parts != [] {
      ResolveAgrees(parts[0], ctx, env, trust, depth + 1);
      MapKeysAgree(parts[1..], ctx, env, trust, depth);
      var all := MapKeys(parts, ctx, depth);
      if all.Some? {
        forall i | 0 <= i < |parts|
          ensures Means(parts[i], ctx, env) == Plain(Str(all.value.texts[i]))
        {
          if i > 0 { assert parts[i] == parts[1..][i - 1]; }
        }
      }
    }
  }

  lemma FindInMapAgrees(n: Node, ctx: Context, env: Environment, trust: Trust, depth: nat)
    requires Setting(ctx, env, trust) && depth <= MAX_DEPTH && IsCall(n) && Callee(n).FindInMapFn? && Lawful(Arg(n), ctx, trust)
    ensures Agrees(ResolveFindInMap(Arg(n), ctx, depth), CallMeans(n, ctx, env), ctx, env, trust)
    decreases Remaining(depth), 0, MAX_DEPTH
  {
    hide Resolve, MapKeys, Descend, Lawful, Means, Verbatim, Literal;
    var arg := Arg(n);
    if arg.List? && |arg.items| >= 3 {
      var parts := arg.items[..3];
      LawfulParts(arg, ctx, trust);
      MapKeysAgree(parts, ctx, env, trust, depth);
      var keys := MapKeys(parts, ctx, depth);
      if keys.Some? {
        var means := [Means(arg.items[0], ctx, env), Means(arg.items[1], ctx, env), Means(arg.items[2], ctx, env)];
        assert forall i :: 0 <= i < 3 ==> means[i] == Means(parts[i], ctx, env);
        assert seq(3, i requires 0 <= i < 3 => means[i].scalar.s) == keys.value.texts;
        var entry := Descend(ctx.mappings, keys.value.texts);
        DescendIsLiteral(ctx.mappings, keys.value.texts);
        if entry.Some? {
          LiteralMeansItself(entry.value, ctx, env, trust);
        }
      }
    }
  }

  lemma LawfulParts(n: Node, ctx: Context, trust: Trust)
    requires Lawful(n, ctx, trust)
    ensures n.List? ==> forall i :: 0 <= i < |n.items| ==> Lawful(n.items[i], ctx, trust)
    ensures n.Dict? ==> forall i :: 0 <= i < |n.entries| ==> Lawful(n.entries[i].value, ctx, trust)
  {
  }

  lemma IfAgrees(n: Node, ctx: Context, env: Environment, trust: Trust, depth: nat)
    requires Setting(ctx, env, trust) && depth <= MAX_DEPTH && IsCall(n) && Callee(n).IfFn?
    requires Lawful(Arg(n), ctx, trust) && LawfulCall(IfFn, Arg(n), ctx, trust)
    ensures Agrees(ResolveIf(Arg(n), ctx, depth), CallMeans(n, ctx, env), ctx, env, trust)
    decreases Remaining(depth), 0, 0
  {
    hide Resolve, EvaluateCondition, Lawful, Means;
    var arg := Arg(n);
    if Takes(arg, 3) {
      LawfulParts(arg, ctx, trust);
      ConditionAgrees(arg.items[0], ctx, env, trust, depth + 1, {});
      ResolveAgrees(arg.items[1], ctx, env, trust, depth + 1);
      ResolveAgrees(arg.items[2], ctx, env, trust, depth + 1);
    }
  }

  lemma {:induction false} JoinPiecesAgree(parts: seq<Node>, ctx: Context, env: Environment, trust: Trust, depth: nat)
    requires Setting(ctx, env, trust) && depth <= MAX_DEPTH
    requires forall i :: 0 <= i < |parts| ==> Lawful(parts[i], ctx, trust) && LawfulPiece(Resolve(parts[i], ctx, 0), trust)
    ensures var all := JoinPieces(parts, ctx, depth);
            all.Some? ==>
              && |all.value.texts| == |parts|
              && forall i :: 0 <= i < |parts| ==>
                   var m := Means(parts[i], ctx, env);
                   m.Plain? && env.text(m.scalar) == all.value.texts[i]
    decreases Remaining(depth), 0, |parts|
  {
    hide Resolve, Lawful;
    if parts != [] {
      ResolveAgrees(parts[0], ctx, env, trust, depth + 1);
      ResolveImproves(parts[0], ctx, ctx, depth + 1, 0, false);
      JoinPiecesAgree(parts[1..], ctx, env, trust, depth);
      var all := JoinPieces(parts, ctx, depth);
      if all.Some? {
        forall i | 0 <= i < |parts|
          ensures var m := Means(parts[i], ctx, env); m.Plain? && env.text(m.scalar) == all.value.texts[i]
        {
          if i > 0 { assert parts[i] == parts[1..][i - 1]; }
        }
      }
    }
  }

  lemma JoinAgrees(n: Node, ctx: Context, env: Environment, trust: Trust, depth: nat)
    requires Setting(ctx, env, trust) && depth <= MAX_DEPTH && IsCall(n) && Callee(n).JoinFn?
    requires Lawful(Arg(n), ctx, trust) && LawfulCall(JoinFn, Arg(n), ctx, trust)
    ensures Agrees(ResolveJoin(Arg(n), ctx, depth), CallMeans(n, ctx, env), ctx, env, trust)
    decreases Remaining(depth), 1, 0
  {
    hide Resolve, JoinPieces, Intersperse, Lawful, JoinList;
    var arg := Arg(n);
    if Takes(arg, 2) {
      LawfulParts(arg, ctx, trust);
      JoinListAgrees(arg.items[1], ctx, env, trust, depth);
      var parts := JoinList(arg.items[1], ctx, depth);
      if parts.List? {
        LawfulParts(parts, ctx, trust);
        JoinPartsLawful(arg.items[1], ctx, trust, depth);
        JoinPiecesAgree(parts.items, ctx, env, trust, depth);
        var all := JoinPieces(parts.items, ctx, depth);
        if all.Some? {
          assert DeployedTexts(MeansEach(parts.items, ctx, env), env) == all.value.texts;
        }
      }
    }
    assert Lawful(Leaf(Str("")), ctx, trust) by { LeafIsLawful(ctx, trust); }
    LeafIsLawful(ctx, trust);
  }

  lemma JoinPartsLawful(parts: Node, ctx: Context, trust: Trust, depth: nat)
    requires LawfulPieces(parts, ctx, trust) && depth <= MAX_DEPTH && JoinList(parts, ctx, depth).List?
    ensures var items := JoinList(parts, ctx, depth).items;
            forall i :: 0 <= i < |items| ==> LawfulPiece(Resolve(items[i], ctx, 0), trust)
  {
    hide LawfulPiece, ResolveCall;
    ResolveImproves(parts, ctx, ctx, depth + 1, 0, false);
  }

  lemma LeafIsLawful(ctx: Context, trust: Trust)
    ensures forall s :: Lawful(Leaf(s), ctx, trust)
  {
  }

  lemma JoinListAgrees(parts: Node, ctx: Context, env: Environment, trust: Trust, depth: nat)
    requires Setting(ctx, env, trust) && depth <= MAX_DEPTH && Lawful(parts, ctx, trust)
    ensures Lawful(JoinList(parts, ctx, depth), ctx, trust)
    ensures Means(JoinList(parts, ctx, depth), ctx, env) == Means(parts, ctx, env)
    decreases Remaining(depth), 0, 0
  {
    ResolveAgrees(parts, ctx, env, trust, depth + 1);
  }

  lemma SelectAgrees(n: Node, ctx: Context, env: Environment, trust: Trust, depth: nat)
    requires Setting(ctx, env, trust) && depth <= MAX_DEPTH && IsCall(n) && Callee(n).SelectFn?
    requires Lawful(Arg(n), ctx, trust) && LawfulCall(SelectFn, Arg(n), ctx, trust)
    ensures Agrees(ResolveSelect(Arg(n), ctx, depth), CallMeans(n, ctx, env), ctx, env, trust)
    decreases Remaining(depth), 0, 0
  {
    hide Resolve, Lawful, IndexOf, Means, FnOf, Setting;
    var arg := Arg(n);
    if Takes(arg, 2) {
      LawfulParts(arg, ctx, trust);
      ResolveAgrees(arg.items[0], ctx, env, trust, depth + 1);
      ResolveAgrees(arg.items[1], ctx, env, trust, depth + 1);
      ResolveImproves(arg.items[0], ctx, ctx, depth + 1, 0, false);
      ResolveImproves(arg.items[1], ctx, ctx, depth + 1, 0, false);
      var index, candidates := Resolve(arg.items[0], ctx, depth + 1), Resolve(arg.items[1], ctx, depth + 1);
      if index.Known? && index.value.Leaf? && candidates.Known? {
        var position := IndexOf(index.value.scalar, ctx.host);
        if position.Some? {
          LawfulParts(candidates.value, ctx, trust);
          PickAgrees(index.value.scalar, candidates.value, position.value, n, ctx, env);
        }
      }
    }
  }

  lemma PickAgrees(index: Scalar, candidates: Node, position: int, n: Node, ctx: Context, env: Environment)
    requires position >= 0 && !(candidates.Leaf? && candidates.scalar.Str?)
    requires IndexOf(index, ctx.host) == Some(position)
    ensures Means(Leaf(index), ctx, env) == Plain(index)
    ensures Pick(candidates, position).Some? ==>
              && candidates.List?
              && position < |candidates.items|
              && Pick(candidates, position).value == candidates.items[position]
              && SelectMeans(Plain(index), Means(candidates, ctx, env), n, ctx, env)
                 == Means(candidates.items[position], ctx, env)
  {
  }

  lemma SplitAgrees(n: Node, ctx: Context, env: Environment, trust: Trust, depth: nat)
    requires Setting(ctx, env, trust) && depth <= MAX_DEPTH && IsCall(n) && Callee(n).SplitFn? && Lawful(Arg(n), ctx, trust)
    ensures Agrees(ResolveSplit(Arg(n), ctx, depth), CallMeans(n, ctx, env), ctx, env, trust)
    decreases Remaining(depth), 0, 0
  {
    hide Resolve, SplitText, Lawful, Literal, FnOf, Setting;
    var arg := Arg(n);
    if Takes(arg, 2) {
      LawfulParts(arg, ctx, trust);
      ResolveAgrees(arg.items[1], ctx, env, trust, depth + 1);
      var r := ResolveSplit(arg, ctx, depth);
      if r.Known? {
        TextListIsLiteral(SplitText(Resolve(arg.items[1], ctx, depth + 1).value.scalar.s, arg.items[0].scalar.s, 0));
        LiteralMeansItself(r.value, ctx, env, trust);
      }
    }
  }

  lemma TextListIsLiteral(texts: seq<string>)
    ensures Literal(TextList(texts))
  {
    forall i | 0 <= i < |texts|
      ensures Literal(TextList(texts).items[i])
    {
      assert TextList(texts).items[i] == Leaf(Str(texts[i]));
    }
  }

  lemma {:induction false} SubPiecesAgree(st: SubTemplate, arg: Node, ctx: Context, env: Environment, trust: Trust, depth: nat)
    requires Setting(ctx, env, trust) && depth <= MAX_DEPTH && Lawful(arg, ctx, trust) && SubParts(arg).Some?
    requires LawfulSlots(st, SubParts(arg).value.1, ctx, trust)
    ensures var text := SubPieces(st, SubParts(arg).value.1, ctx, depth);
            text.Some? ==> SubMeans(st, arg, ctx, env) == Some(text.value.text)
    decreases Remaining(depth), 0, 1, st
  {
    hide SlotValue, SlotMeans, SubParts;
    if st.Slot? {
      if !IsEscape(st.name) {
        SlotAgrees(st.name, arg, ctx, env, trust, depth);
        SlotImproves(st.name, SubParts(arg).value.1, ctx, ctx, depth, 0, false);
      }
      SubPiecesAgree(st.rest, arg, ctx, env, trust, depth);
    }
  }

  lemma SlotAgrees(name: string, arg: Node, ctx: Context, env: Environment, trust: Trust, depth: nat)
    requires Setting(ctx, env, trust) && depth <= MAX_DEPTH && Lawful(arg, ctx, trust) && SubParts(arg).Some?
    requires IsName(name, SubParts(arg).value.1) ==> LawfulName(name, ctx, trust)
    ensures Agrees(SlotValue(name, SubParts(arg).value.1, ctx, depth), SlotMeans(name, arg, ctx, env), ctx, env, trust)
    decreases Remaining(depth), 0, 0
  {
    hide Resolve, ResolveRef, RefMeans, ResolveGetAtt, GetAttMeans, Means, FirstDot;
    var local := SubParts(arg).value.1;
    match Lookup(local, name)
    case Some(node) =>
      assert Lawful(node, ctx, trust) by {
        LawfulParts(arg, ctx, trust);
        LawfulParts(arg.items[1], ctx, trust);
      }
      ResolveAgrees(node, ctx, env, trust, depth + 1);
    case None =>
      var dot := FirstDot(name, 0);
      if dot < |name| { GetAttAgrees(DottedTarget(name, dot), ctx, env, trust); }
      else { RefAgrees(Leaf(Str(name)), ctx, env, trust); }
  }

  lemma SubAgrees(n: Node, ctx: Context, env: Environment, trust: Trust, depth: nat)
    requires Setting(ctx, env, trust) && depth <= MAX_DEPTH && IsCall(n) && Callee(n).SubFn?
    requires Lawful(Arg(n), ctx, trust) && LawfulCall(SubFn, Arg(n), ctx, trust)
    ensures Agrees(ResolveSub(Arg(n), ctx, depth), CallMeans(n, ctx, env), ctx, env, trust)
    decreases Remaining(depth), 1, 0
  {
    hide SubPieces, ParseSub, SubMeans, SubParts;
    var arg := Arg(n);
    if SubParts(arg).Some? {
      SubPiecesAgree(ParseSub(SubParts(arg).value.0), arg, ctx, env, trust, depth);
    }
  }

  // ----- conditions -----

  lemma {:induction false} ConditionAgrees(name: Node, ctx: Context, env: Environment, trust: Trust, depth: nat, seen: set<string>)
    requires Setting(ctx, env, trust) && InScope(name, trust)
    ensures VerdictAgrees(EvaluateCondition(name, ctx, depth, seen), ConditionHolds(name, env))
    decreases Remaining(depth), 2
  {
    hide EvaluateExpression, Holds, Lawful;
    if depth <= MAX_DEPTH && name.Leaf? && name.scalar.Str? && Defined(ctx, name.scalar.s) {
      ExpressionAgrees(ctx.conditions[name.scalar.s], ctx, env, trust, depth + 1, seen + {name.scalar.s});
    }
  }

  lemma {:induction false} ExpressionAgrees(e: Node, ctx: Context, env: Environment, trust: Trust, depth: nat, seen: set<string>)
    requires Setting(ctx, env, trust) && Lawful(e, ctx, trust)
    ensures VerdictAgrees(EvaluateExpression(e, ctx, depth, seen), Holds(e, ctx, env))
    decreases Remaining(depth), 2
  {
    hide EvaluateCondition, EvaluateEach, EvaluateEquals, EvaluateNot, KleeneAnd, KleeneOr, Means, FnOf, Setting, SameText;
    if depth <= MAX_DEPTH && IsCall(e) {
      var arg := Arg(e);
      assert Lawful(arg, ctx, trust) && LawfulCall(Callee(e), arg, ctx, trust);
      match Callee(e)
      case ConditionFn => ConditionAgrees(arg, ctx, env, trust, depth + 1, seen);
      case EqualsFn => EqualsAgrees(e, ctx, env, trust, depth + 1);
      case NotFn => NotAgrees(e, ctx, env, trust, depth + 1, seen);
      case AndFn => if arg.List? { AndAgrees(arg.items, ctx, env, trust, depth + 1, seen); }
      case OrFn => if arg.List? { OrAgrees(arg.items, ctx, env, trust, depth + 1, seen); }
      case _ =>
    }
  }

  lemma EqualsAgrees(e: Node, ctx: Context, env: Environment, trust: Trust, depth: nat)
    requires Setting(ctx, env, trust) && IsCall(e) && Callee(e).EqualsFn?
    requires Lawful(Arg(e), ctx, trust) && LawfulCall(EqualsFn, Arg(e), ctx, trust)
    ensures VerdictAgrees(EvaluateEquals(Arg(e), ctx, depth), Holds(e, ctx, env))
    decreases Remaining(depth), 3
  {
    hide Resolve, Lawful;
    var arg := Arg(e);
    if Takes(arg, 2) {
      LawfulParts(arg, ctx, trust);
      ResolveAgrees(arg.items[0], ctx, env, trust, depth);
      ResolveAgrees(arg.items[1], ctx, env, trust, depth);
      ResolveImproves(arg.items[0], ctx, ctx, depth, 0, false);
      ResolveImproves(arg.items[1], ctx, ctx, depth, 0, false);
    }
  }

  lemma NotAgrees(e: Node, ctx: Context, env: Environment, trust: Trust, depth: nat, seen: set<string>)
    requires Setting(ctx, env, trust) && IsCall(e) && Callee(e).NotFn? && Lawful(Arg(e), ctx, trust)
    ensures VerdictAgrees(EvaluateNot(Arg(e), ctx, depth, seen), Holds(e, ctx, env))
    decreases Remaining(depth), 3
  {
    hide EvaluateExpression, Lawful;
    var arg := Arg(e);
    if Takes(arg, 1) {
      LawfulParts(arg, ctx, trust);
      ExpressionAgrees(arg.items[0], ctx, env, trust, depth, seen);
    }
  }

  lemma AndAgrees(items: seq<Node>, ctx: Context, env: Environment, trust: Trust, depth: nat, seen: set<string>)
    requires Setting(ctx, env, trust) && forall i :: 0 <= i < |items| ==> Lawful(items[i], ctx, trust)
    ensures VerdictAgrees(KleeneAnd(EvaluateEach(items, ctx, depth, seen)),
                          forall i :: 0 <= i < |items| ==> Holds(items[i], ctx, env))
    decreases Remaining(depth), 3
  {
    hide EvaluateExpression, Lawful, Holds;
    var vs := EvaluateEach(items, ctx, depth, seen);
    forall i | 0 <= i < |items|
      ensures VerdictAgrees(vs[i], Holds(items[i], ctx, env)) && vs[i] in vs
    {
      ExpressionAgrees(items[i], ctx, env, trust, depth, seen);
    }
  }

  lemma OrAgrees(items: seq<Node>, ctx: Context, env: Environment, trust: Trust, depth: nat, seen: set<string>)
    requires Setting(ctx, env, trust) && forall i :: 0 <= i < |items| ==> Lawful(items[i], ctx, trust)
    ensures VerdictAgrees(KleeneOr(EvaluateEach(items, ctx, depth, seen)),
                          exists i :: 0 <= i < |items| && Holds(items[i], ctx, env))
    decreases Remaining(depth), 3
  {
    hide EvaluateExpression, Lawful, Holds;
    var vs := EvaluateEach(items, ctx, depth, seen);
    forall i | 0 <= i < |items|
      ensures VerdictAgrees(vs[i], Holds(items[i], ctx, env)) && vs[i] in vs
    {
      ExpressionAgrees(items[i], ctx, env, trust, depth, seen);
    }
  }

  // ----- main results -----

  /** In every deployment that agrees with the inputs and satisfies the condition definitions,
      a known scalar is the deployed value, a reference names what is deployed, and an omitted
      property is absent. */
  lemma ResolutionIsSound(n: Node, ctx: Context, env: Environment, trust: Trust, depth: nat)
    requires Setting(ctx, env, trust) && Lawful(n, ctx, trust)
    ensures var r := Resolve(n, ctx, depth);
            && (r.Known? && r.value.Leaf? ==> Means(n, ctx, env) == Plain(r.value.scalar))
            && (r.Known? ==> Means(n, ctx, env) == Means(r.value, ctx, env))
            && (r.Reference? ==> Means(n, ctx, env) == env.attribute(r.logicalId, r.attribute))
            && (r.Omitted? ==> Means(n, ctx, env) == Absent)
  {
    ResolveAgrees(n, ctx, env, trust, depth);
  }

  lemma VerdictIsSound(name: string, ctx: Context, env: Environment, trust: Trust, depth: nat)
    requires Setting(ctx, env, trust) && name in trust.conditions
    ensures EvaluateCondition(Leaf(Str(name)), ctx, depth, {}) == Yes ==> env.truth(name)
    ensures EvaluateCondition(Leaf(Str(name)), ctx, depth, {}) == No ==> !env.truth(name)
  {
    ConditionAgrees(Leaf(Str(name)), ctx, env, trust, depth, {});
  }

  /** An undecided `If` over two scalars lists the value that will be deployed. */
  lemma ScenariosCoverDeployment(n: Node, ctx: Context, env: Environment, depth: nat)
    requires IsCall(n) && Callee(n).IfFn? && Takes(Arg(n), 3) && depth <= MAX_DEPTH
    requires IsScenario(Arg(n).items[1]) && IsScenario(Arg(n).items[2])
    requires EvaluateCondition(Arg(n).items[0], ctx, depth + 1, {}) == Undecided
    ensures var r := Resolve(n, ctx, depth);
            && r.Unknown?
            && r.scenarios == [Arg(n).items[1].scalar, Arg(n).items[2].scalar]
            && Means(n, ctx, env).Plain?
            && Means(n, ctx, env).scalar in r.scenarios
  {
    assert Resolve(n, ctx, depth) == ResolveCall(n, ctx, depth) == ResolveIf(Arg(n), ctx, depth);
    var chosen := if ConditionHolds(Arg(n).items[0], env) then Arg(n).items[1] else Arg(n).items[2];
    assert Means(n, ctx, env) == CallMeans(n, ctx, env) == Means(chosen, ctx, env);
    assert Means(chosen, ctx, env) == Plain(chosen.scalar);
    var branches := Arg(n).items[1..];
    assert branches[1..][0] == Arg(n).items[2] && branches[1..][1..] == [];
    assert Scenarios(branches[1..]) == [Arg(n).items[2].scalar];
    assert Scenarios(branches) == [Arg(n).items[1].scalar, Arg(n).items[2].scalar];
  }

  // ----- where the hypotheses are needed -----

  /** A negative position counts from the end, and a string yields a character, so exactly
      there a known selection has no deployed counterpart but what the environment says. */
  lemma SelectOutsideTheGuard(n: Node, ctx: Context, env: Environment, trust: Trust, depth: nat, index: Scalar, candidates: Node, position: int)
    requires IsCall(n) && Callee(n).SelectFn? && Takes(Arg(n), 2)
    requires Setting(ctx, env, trust) && Lawful(Arg(n), ctx, trust) && depth <= MAX_DEPTH
    requires Resolve(Arg(n).items[0], ctx, depth + 1).Known? && Resolve(Arg(n).items[0], ctx, depth + 1).value == Leaf(index)
    requires Resolve(Arg(n).items[1], ctx, depth + 1).Known? && Resolve(Arg(n).items[1], ctx, depth + 1).value == candidates
    requires IndexOf(index, ctx.host) == Some(position) && Pick(candidates, position).Some?
    ensures ResolveSelect(Arg(n), ctx, depth) == Known(Pick(candidates, position).value, FromTemplate)
    ensures if position >= 0 && candidates.List? then
              CallMeans(n, ctx, env) == Means(Pick(candidates, position).value, ctx, env)
            else CallMeans(n, ctx, env) == env.other(n)
  {
    hide Resolve, Lawful, IndexOf, Means, FnOf, Setting;
    LawfulParts(Arg(n), ctx, trust);
    ResolveAgrees(Arg(n).items[0], ctx, env, trust, depth + 1);
    ResolveAgrees(Arg(n).items[1], ctx, env, trust, depth + 1);
    PickMeans(index, candidates, position, n, ctx, env);
  }

  lemma PickMeans(index: Scalar, candidates: Node, position: int, n: Node, ctx: Context, env: Environment)
    requires IndexOf(index, ctx.host) == Some(position) && Pick(candidates, position).Some?
    ensures Means(Leaf(index), ctx, env) == Plain(index)
    ensures SelectMeans(Plain(index), Means(candidates, ctx, env), n, ctx, env)
            == if position >= 0 && candidates.List? then Means(Pick(candidates, position).value, ctx, env) else env.other(n)
  {
  }
}
