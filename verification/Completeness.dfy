/** What the inputs alone determine, resolution finds. */
module Completeness {
  import opened Templates
  import opened SubTemplates
  import opened Intrinsics
  import opened Chains
  import opened Deployment
  import opened Soundness
  import opened Guards

  /** Nothing is known beyond the inputs. */
  ghost predicate Bare(env: Environment) {
    && (forall n :: env.other(n) == Absent)
    && (forall id, attribute :: env.attribute(id, attribute) == Absent)
    && env.pseudo(StackId) == Absent && env.pseudo(NotificationArns) == Absent
  }

  /** A name that stands for a parameter stands for one with a value. */
  predicate HasValue(name: string, ctx: Context) {
    PseudoOf(name).None? && name !in ctx.resourceIds && name in ctx.declared ==> name in ctx.supplied || name in ctx.defaults
  }

  /** The node can be worked out from `depth`: there is room, the parameters it names have values,
      the conditions it consults are decided, and no call that it picks out feeds another. */
  predicate Steady(n: Node, ctx: Context, depth: nat)
    decreases Remaining(depth), 1
  {
    IsCall(n) ==> depth < MAX_DEPTH && SteadyCall(n, ctx, depth)
  }

  predicate SteadyCall(n: Node, ctx: Context, depth: nat)
    requires IsCall(n) && depth < MAX_DEPTH
    decreases Remaining(depth), 0, 3
  {
    var arg := Arg(n);
    match Callee(n)
    case RefFn => arg.Leaf? && arg.scalar.Str? ==> HasValue(arg.scalar.s, ctx)
    case IfFn =>
      Takes(arg, 3) ==>
        (match EvaluateCondition(arg.items[0], ctx, depth + 1, {})
         case Yes => Steady(arg.items[1], ctx, depth + 1)
         case No => Steady(arg.items[2], ctx, depth + 1)
         case Undecided => false)
    case FindInMapFn =>
      arg.List? && |arg.items| >= 3 ==> Feeds(arg.items[0], ctx, depth) && Feeds(arg.items[1], ctx, depth) && Feeds(arg.items[2], ctx, depth)
    case SelectFn => Takes(arg, 2) ==> Feeds(arg.items[0], ctx, depth) && Feeds(arg.items[1], ctx, depth)
    case SplitFn => Takes(arg, 2) ==> Feeds(arg.items[1], ctx, depth)
    case JoinFn => Takes(arg, 2) ==> Feeds(arg.items[1], ctx, depth) && PartsFeed(arg.items[1], ctx, depth)
    case SubFn => SubParts(arg).Some? ==> SlotsFeed(ParseSub(SubParts(arg).value.0), SubParts(arg).value.1, ctx, depth)
    case ConditionFn => !EvaluateCondition(arg, ctx, depth + 1, {}).Undecided?
    case AndFn => !EvaluateExpression(n, ctx, depth + 1, {}).Undecided?
    case OrFn => !EvaluateExpression(n, ctx, depth + 1, {}).Undecided?
    case NotFn => !EvaluateExpression(n, ctx, depth + 1, {}).Undecided?
    case EqualsFn => !EvaluateExpression(n, ctx, depth + 1, {}).Undecided?
    case _ => true
  }

  /** An argument that is worked out and does not end in a picked call. */
  predicate Feeds(n: Node, ctx: Context, depth: nat)
    requires depth < MAX_DEPTH
    decreases Remaining(depth), 0, 0
  {
    Steady(n, ctx, depth + 1) && !PicksCall(n, ctx, depth + 1)
  }

  /** So is every element of the list an argument takes from the template. */
  predicate PartsFeed(list: Node, ctx: Context, depth: nat)
    requires depth < MAX_DEPTH
    decreases Remaining(depth), 0, 1
  {
    var e := Ends(list, ctx, depth + 1);
    e.Taken? && e.node.List? ==> forall i :: 0 <= i < |e.node.items| ==> Feeds(e.node.items[i], ctx, depth)
  }

  predicate SlotsFeed(st: SubTemplate, local: seq<Entry>, ctx: Context, depth: nat)
    requires depth < MAX_DEPTH
    decreases Remaining(depth), 0, 2, st
  {
    match st
    case Last(_) => true
    case Unclosed(_, _) => true
    case Slot(_, name, rest) => (IsEscape(name) || SlotFeeds(name, local, ctx, depth)) && SlotsFeed(rest, local, ctx, depth)
  }

  predicate SlotFeeds(name: string, local: seq<Entry>, ctx: Context, depth: nat)
    requires depth < MAX_DEPTH
    decreases Remaining(depth), 0, 1
  {
    match Lookup(local, name)
    case Some(node) => Feeds(node, ctx, depth)
    case None => HasValue(name, ctx)
  }

  // ----- what is determined is found -----

  /** The hypotheses of completeness for one node. */
  ghost predicate Ready(n: Node, ctx: Context, env: Environment, trust: Trust, depth: nat) {
    Setting(ctx, env, trust) && Bare(env) && Lawful(n, ctx, trust) && Steady(n, ctx, depth) && depth <= MAX_DEPTH
  }

  /** The same for an argument, one level down. */
  ghost predicate ReadyToFeed(n: Node, ctx: Context, env: Environment, trust: Trust, depth: nat) {
    depth < MAX_DEPTH && Ready(n, ctx, env, trust, depth + 1) && !PicksCall(n, ctx, depth + 1)
  }

  lemma {:induction false} FindsTheDetermined(n: Node, ctx: Context, env: Environment, trust: Trust, depth: nat)
    requires Ready(n, ctx, env, trust, depth) && Means(n, ctx, env) != Absent
    ensures Resolve(n, ctx, depth).Known?
    decreases Remaining(depth), 2
  {
    hide ResolveRef, ResolveFindInMap, ResolveIf, ResolveJoin, ResolveSelect, ResolveSplit, ResolveSub, ResolveGetAtt, FindInMapMeans, JoinMeans, SelectMeans,
         SplitMeans, SubMeans, RefMeans, GetAttMeans, SubParts, ParseSub, EvaluateCondition, EvaluateExpression, Holds, Setting, ConditionHolds, Lawful, SteadyCall, Bare;
    if IsCall(n) {
      var arg := Arg(n);
      assert Resolve(n, ctx, depth) == ResolveCall(n, ctx, depth);
      assert Means(n, ctx, env) == CallMeans(n, ctx, env);
      match Callee(n)
      case RefFn => RefIsFound(n, ctx, env, trust, depth);
      case GetAttFn => GetAttIsAbsent(arg, ctx, env);
      case FindInMapFn => FindInMapIsFound(n, ctx, env, trust, depth);
      case IfFn => IfIsFound(n, ctx, env, trust, depth);
      case JoinFn => JoinIsFound(n, ctx, env, trust, depth);
      case SelectFn => SelectIsFound(n, ctx, env, trust, depth);
      case SplitFn => SplitIsFound(n, ctx, env, trust, depth);
      case SubFn => SubIsFound(n, ctx, env, trust, depth);
      case _ => OthersAreFound(n, ctx, env, depth);
    }
  }

  lemma OtherIsAbsent(n: Node, env: Environment)
    requires Bare(env)
    ensures env.other(n) == Absent
  {
  }

  lemma OthersAreFound(n: Node, ctx: Context, env: Environment, depth: nat)
    requires Bare(env) && IsCall(n) && depth < MAX_DEPTH && SteadyCall(n, ctx, depth) && CallMeans(n, ctx, env) != Absent
    requires var fn := Callee(n);
             !(fn.RefFn? || fn.GetAttFn? || fn.FindInMapFn? || fn.IfFn? || fn.JoinFn? || fn.SelectFn? || fn.SplitFn? || fn.SubFn?)
    ensures ResolveCall(n, ctx, depth).Known?
  {
    hide EvaluateCondition, EvaluateExpression, Holds, ConditionHolds;
  }

  lemma ArgIsLawful(n: Node, ctx: Context, trust: Trust)
    requires IsCall(n) && Lawful(n, ctx, trust)
    ensures Lawful(Arg(n), ctx, trust) && LawfulCall(Callee(n), Arg(n), ctx, trust)
    ensures Arg(n).List? ==> forall i :: 0 <= i < |Arg(n).items| ==> Lawful(Arg(n).items[i], ctx, trust)
  {
    hide LawfulCall;
    LawfulParts(Arg(n), ctx, trust);
  }

  /** A determined scalar is found as that scalar, a determined list as a list. */
  lemma FindsTheValue(n: Node, ctx: Context, env: Environment, trust: Trust, depth: nat)
    requires ReadyToFeed(n, ctx, env, trust, depth) && Means(n, ctx, env) != Absent
    ensures var r, m := Resolve(n, ctx, depth + 1), Means(n, ctx, env);
            && r.Known? && Means(r.value, ctx, env) == m && Lawful(r.value, ctx, trust)
            && (m.Plain? ==> r.value == Leaf(m.scalar))
            && (m.Many? ==> r.value.List? && m.items == MeansEach(r.value.items, ctx, env))
    decreases Remaining(depth + 1), 3
  {
    hide Resolve, Lawful, Steady, Bare, Setting, Ends;
    FindsTheDetermined(n, ctx, env, trust, depth + 1);
    ResolveAgrees(n, ctx, env, trust, depth + 1);
    ChainsDecide(n, ctx, depth + 1);
    DataMeans(Resolve(n, ctx, depth + 1).value, ctx, env);
  }

  lemma DataMeans(v: Node, ctx: Context, env: Environment)
    requires !IsCall(v)
    ensures Means(v, ctx, env).Plain? ==> v == Leaf(Means(v, ctx, env).scalar)
    ensures Means(v, ctx, env).Many? ==> v.List? && Means(v, ctx, env).items == MeansEach(v.items, ctx, env)
  {
  }

  lemma NameIsFound(name: string, ctx: Context, env: Environment, trust: Trust)
    requires Setting(ctx, env, trust) && Bare(env) && HasValue(name, ctx) && RefMeans(Leaf(Str(name)), ctx, env) != Absent
    ensures var r := ResolveRef(Leaf(Str(name)), ctx); r.Known? && r.value.Leaf?
  {
    hide PseudoOf, Lawful, Warrants;
  }

  lemma RefIsFound(n: Node, ctx: Context, env: Environment, trust: Trust, depth: nat)
    requires Ready(n, ctx, env, trust, depth) && IsCall(n) && Callee(n).RefFn? && CallMeans(n, ctx, env) != Absent
    ensures ResolveRef(Arg(n), ctx).Known?
  {
    hide PseudoOf, Lawful, Setting, HasValue;
    assert Steady(n, ctx, depth) && SteadyCall(n, ctx, depth);
    if Arg(n).Leaf? && Arg(n).scalar.Str? { NameIsFound(Arg(n).scalar.s, ctx, env, trust); }
  }

  lemma GetAttIsAbsent(arg: Node, ctx: Context, env: Environment)
    requires Bare(env)
    ensures GetAttMeans(arg, ctx, env) == Absent
  {
    hide ResolveGetAtt;
  }

  lemma {:induction false} KeysAreFound(parts: seq<Node>, ctx: Context, env: Environment, trust: Trust, depth: nat)
    requires depth < MAX_DEPTH && forall i :: 0 <= i < |parts| ==> ReadyToFeed(parts[i], ctx, env, trust, depth)
    requires forall i :: 0 <= i < |parts| ==> Means(parts[i], ctx, env).Plain? && Means(parts[i], ctx, env).scalar.Str?
    ensures MapKeys(parts, ctx, depth).Some?
    ensures forall i :: 0 <= i < |parts| ==> MapKeys(parts, ctx, depth).value.texts[i] == Means(parts[i], ctx, env).scalar.s
    decreases Remaining(depth), 0, |parts|
  {
    hide Resolve, ReadyToFeed, Means;
    if parts != [] {
      FindsTheValue(parts[0], ctx, env, trust, depth);
      assert forall i :: 0 <= i < |parts[1..]| ==> parts[1..][i] == parts[i + 1];
      KeysAreFound(parts[1..], ctx, env, trust, depth);
    }
  }

  lemma FindInMapIsFound(n: Node, ctx: Context, env: Environment, trust: Trust, depth: nat)
    requires Ready(n, ctx, env, trust, depth) && IsCall(n) && Callee(n).FindInMapFn? && CallMeans(n, ctx, env) != Absent
    ensures ResolveFindInMap(Arg(n), ctx, depth).Known?
    decreases Remaining(depth), 1
  {
    hide Resolve, MapKeys, Descend, Means, Verbatim, Lawful, Setting, PicksCall;
    ArgIsLawful(n, ctx, trust);
    assert SteadyCall(n, ctx, depth);
    var arg := Arg(n);
    if arg.List? && |arg.items| >= 3 {
      var parts := arg.items[..3];
      var means := [Means(arg.items[0], ctx, env), Means(arg.items[1], ctx, env), Means(arg.items[2], ctx, env)];
      assert forall i :: 0 <= i < 3 ==> means[i] == Means(parts[i], ctx, env);
      assert Feeds(arg.items[0], ctx, depth) && Feeds(arg.items[1], ctx, depth) && Feeds(arg.items[2], ctx, depth);
      KeysAreFound(parts, ctx, env, trust, depth);
      assert seq(3, i requires 0 <= i < 3 => means[i].scalar.s) == MapKeys(parts, ctx, depth).value.texts;
    }
  }

  lemma IfIsFound(n: Node, ctx: Context, env: Environment, trust: Trust, depth: nat)
    requires Ready(n, ctx, env, trust, depth) && IsCall(n) && Callee(n).IfFn? && CallMeans(n, ctx, env) != Absent
    ensures ResolveIf(Arg(n), ctx, depth).Known?
    decreases Remaining(depth), 1
  {
    hide Resolve, Means, Lawful, Setting, EvaluateCondition, ConditionHolds;
    ArgIsLawful(n, ctx, trust);
    assert SteadyCall(n, ctx, depth);
    var arg := Arg(n);
    if Takes(arg, 3) {
      ConditionAgrees(arg.items[0], ctx, env, trust, depth + 1, {});
      FindsTheDetermined(if ConditionHolds(arg.items[0], env) then arg.items[1] else arg.items[2], ctx, env, trust, depth + 1);
    }
  }

  lemma {:induction false} PiecesAreFound(parts: seq<Node>, ctx: Context, env: Environment, trust: Trust, depth: nat)
    requires depth < MAX_DEPTH && forall i :: 0 <= i < |parts| ==> ReadyToFeed(parts[i], ctx, env, trust, depth)
    requires forall i :: 0 <= i < |parts| ==> Means(parts[i], ctx, env).Plain?
    ensures JoinPieces(parts, ctx, depth).Some?
    decreases Remaining(depth), 0, |parts|
  {
    hide Resolve, ReadyToFeed, Means;
    if parts != [] {
      FindsTheValue(parts[0], ctx, env, trust, depth);
      assert forall i :: 0 <= i < |parts[1..]| ==> parts[1..][i] == parts[i + 1];
      PiecesAreFound(parts[1..], ctx, env, trust, depth);
    }
  }

  lemma JoinIsFound(n: Node, ctx: Context, env: Environment, trust: Trust, depth: nat)
    requires Ready(n, ctx, env, trust, depth) && IsCall(n) && Callee(n).JoinFn? && CallMeans(n, ctx, env) != Absent
    ensures ResolveJoin(Arg(n), ctx, depth).Known?
    decreases Remaining(depth), 1
  {
    hide Resolve, Lawful, Setting, JoinPieces, Intersperse, DeployedTexts, Means, PicksCall, PartsFeed, Bare;
    ArgIsLawful(n, ctx, trust);
    OtherIsAbsent(n, env);
    assert SteadyCall(n, ctx, depth);
    var arg := Arg(n);
    if Takes(arg, 2) {
      var list := arg.items[1];
      assert Means(list, ctx, env).Many? && Feeds(list, ctx, depth);
      FindsTheValue(list, ctx, env, trust, depth);
      var value := Resolve(list, ctx, depth + 1).value;
      assert JoinList(list, ctx, depth) == value;
      ItemsFeed(list, ctx, env, trust, depth);
      PiecesAreFound(value.items, ctx, env, trust, depth);
    }
  }

  lemma ItemsFeed(list: Node, ctx: Context, env: Environment, trust: Trust, depth: nat)
    requires depth < MAX_DEPTH && PartsFeed(list, ctx, depth) && Setting(ctx, env, trust) && Bare(env)
    requires var r := Resolve(list, ctx, depth + 1); r.Known? && r.value.List? && Lawful(r.value, ctx, trust)
    ensures var items := Resolve(list, ctx, depth + 1).value.items;
            forall i :: 0 <= i < |items| ==> ReadyToFeed(items[i], ctx, env, trust, depth)
  {
    hide Resolve, Setting, Bare, Lawful, Ends, Steady;
    EndsDecide(list, ctx, depth + 1);
    var value := Resolve(list, ctx, depth + 1).value;
    LawfulParts(value, ctx, trust);
    forall i | 0 <= i < |value.items|
      ensures ReadyToFeed(value.items[i], ctx, env, trust, depth)
    {
      if !Ends(list, ctx, depth + 1).Taken? { LeafFeeds(value.items[i], ctx, depth + 1); }
    }
  }

  lemma LeafFeeds(n: Node, ctx: Context, depth: nat)
    requires n.Leaf? && depth <= MAX_DEPTH
    ensures Steady(n, ctx, depth) && !PicksCall(n, ctx, depth)
  {
  }

  lemma SelectIsFound(n: Node, ctx: Context, env: Environment, trust: Trust, depth: nat)
    requires Ready(n, ctx, env, trust, depth) && IsCall(n) && Callee(n).SelectFn? && CallMeans(n, ctx, env) != Absent
    ensures ResolveSelect(Arg(n), ctx, depth).Known?
    decreases Remaining(depth), 1
  {
    hide Resolve, Lawful, Setting, IndexOf, Means, PicksCall;
    ArgIsLawful(n, ctx, trust);
    assert SteadyCall(n, ctx, depth);
    var arg := Arg(n);
    if Takes(arg, 2) {
      assert Feeds(arg.items[0], ctx, depth) && Feeds(arg.items[1], ctx, depth);
      FindsTheValue(arg.items[0], ctx, env, trust, depth);
      FindsTheValue(arg.items[1], ctx, env, trust, depth);
    }
  }

  lemma SplitIsFound(n: Node, ctx: Context, env: Environment, trust: Trust, depth: nat)
    requires Ready(n, ctx, env, trust, depth) && IsCall(n) && Callee(n).SplitFn? && CallMeans(n, ctx, env) != Absent
    ensures ResolveSplit(Arg(n), ctx, depth).Known?
    decreases Remaining(depth), 1
  {
    hide Resolve, Lawful, Setting, SplitText, Means, Verbatim, PicksCall;
    ArgIsLawful(n, ctx, trust);
    assert SteadyCall(n, ctx, depth);
    if Takes(Arg(n), 2) {
      assert Feeds(Arg(n).items[1], ctx, depth);
      FindsTheValue(Arg(n).items[1], ctx, env, trust, depth);
    }
  }

  lemma {:induction false} SlotsAreFound(st: SubTemplate, arg: Node, ctx: Context, env: Environment, trust: Trust, depth: nat)
    requires Setting(ctx, env, trust) && Bare(env) && Lawful(arg, ctx, trust) && depth < MAX_DEPTH && SubParts(arg).Some?
    requires SlotsFeed(st, SubParts(arg).value.1, ctx, depth) && SubMeans(st, arg, ctx, env).Some?
    ensures SubPieces(st, SubParts(arg).value.1, ctx, depth).Some?
    decreases Remaining(depth), 0, 1, st
  {
    hide SlotValue, SlotMeans, SubParts, SlotFeeds, Setting, Lawful, Bare;
    if st.Slot? {
      SlotsAreFound(st.rest, arg, ctx, env, trust, depth);
      if !IsEscape(st.name) { SlotIsFound(st.name, arg, ctx, env, trust, depth); }
    }
  }

  lemma SlotIsFound(name: string, arg: Node, ctx: Context, env: Environment, trust: Trust, depth: nat)
    requires Setting(ctx, env, trust) && Bare(env) && Lawful(arg, ctx, trust) && depth < MAX_DEPTH && SubParts(arg).Some?
    requires SlotFeeds(name, SubParts(arg).value.1, ctx, depth) && SlotMeans(name, arg, ctx, env).Plain?
    ensures var r := SlotValue(name, SubParts(arg).value.1, ctx, depth); r.Known? && r.value.Leaf?
    decreases Remaining(depth), 0, 0
  {
    hide Resolve, ResolveRef, RefMeans, ResolveGetAtt, GetAttMeans, Means, FirstDot, Lawful, Setting, Bare, PicksCall, HasValue;
    var local := SubParts(arg).value.1;
    match Lookup(local, name)
    case Some(node) =>
      assert Lawful(node, ctx, trust) by {
        LawfulParts(arg, ctx, trust);
        LawfulParts(arg.items[1], ctx, trust);
      }
      FindsTheValue(node, ctx, env, trust, depth);
    case None =>
      var dot := FirstDot(name, 0);
      if dot < |name| { GetAttIsAbsent(DottedTarget(name, dot), ctx, env); }
      else { NameIsFound(name, ctx, env, trust); }
  }

  lemma SubIsFound(n: Node, ctx: Context, env: Environment, trust: Trust, depth: nat)
    requires Ready(n, ctx, env, trust, depth) && IsCall(n) && Callee(n).SubFn? && CallMeans(n, ctx, env) != Absent
    ensures ResolveSub(Arg(n), ctx, depth).Known?
    decreases Remaining(depth), 1
  {
    hide SubPieces, ParseSub, SubMeans, SubParts, Lawful, Setting, SlotsFeed, Bare;
    ArgIsLawful(n, ctx, trust);
    OtherIsAbsent(n, env);
    assert SteadyCall(n, ctx, depth);
    if SubParts(Arg(n)).Some? { SlotsAreFound(ParseSub(SubParts(Arg(n)).value.0), Arg(n), ctx, env, trust, depth); }
  }

  // ----- main results -----

  /** On steady nodes resolution is exact: it yields a scalar if and only if the inputs alone
      determine that scalar and the node's chain of `If`, `Select` and `FindInMap` does not end
      in a picked call. */
  lemma ResolutionIsExact(n: Node, ctx: Context, env: Environment, trust: Trust, depth: nat, s: Scalar)
    requires Setting(ctx, env, trust) && Bare(env) && Lawful(n, ctx, trust) && Steady(n, ctx, depth) && depth <= MAX_DEPTH
    ensures (exists p :: Resolve(n, ctx, depth) == Known(Leaf(s), p)) <==> Means(n, ctx, env) == Plain(s) && !PicksCall(n, ctx, depth)
  {
    hide Resolve, Lawful, Steady, Setting, Bare, PicksCall;
    ResolveAgrees(n, ctx, env, trust, depth);
    ChainsDecide(n, ctx, depth);
    if Means(n, ctx, env) == Plain(s) && !PicksCall(n, ctx, depth) {
      FindsTheDetermined(n, ctx, env, trust, depth);
      var r := Resolve(n, ctx, depth);
      DataMeans(r.value, ctx, env);
      assert r == Known(Leaf(s), r.provenance);
    }
  }

  /** A join over parts that each deploy to a scalar is known if and only if no part's chain ends
      in a picked call. */
  lemma JoinIsKnownExactly(delimiter: string, parts: seq<Node>, ctx: Context, env: Environment, trust: Trust, depth: nat)
    requires Setting(ctx, env, trust) && Bare(env) && depth < MAX_DEPTH
    requires forall i :: 0 <= i < |parts| ==>
               Lawful(parts[i], ctx, trust) && Steady(parts[i], ctx, depth + 1) && Means(parts[i], ctx, env).Plain?
    ensures Resolve(JoinOf(delimiter, parts), ctx, depth).Known? <==> forall i :: 0 <= i < |parts| ==> !PicksCall(parts[i], ctx, depth + 1)
  {
    hide Resolve, Lawful, Steady, Setting, Bare, PicksCall, Means, FnOf;
    JoinResolves(delimiter, parts, ctx, depth);
    if forall i :: 0 <= i < |parts| ==> !PicksCall(parts[i], ctx, depth + 1) {
      PiecesAreFound(parts, ctx, env, trust, depth);
    } else {
      var i :| 0 <= i < |parts| && PicksCall(parts[i], ctx, depth + 1);
      ChainsDecide(parts[i], ctx, depth + 1);
      OneUnknownPiece(parts, i, ctx, depth);
    }
  }

  lemma {:induction false} OneUnknownPiece(parts: seq<Node>, i: nat, ctx: Context, depth: nat)
    requires depth <= MAX_DEPTH && i < |parts| && !(Resolve(parts[i], ctx, depth + 1).Known? && Resolve(parts[i], ctx, depth + 1).value.Leaf?)
    ensures JoinPieces(parts, ctx, depth).None?
    decreases |parts|
  {
    hide Resolve;
    if i > 0 { OneUnknownPiece(parts[1..], i - 1, ctx, depth); }
  }

  /** For instance, a join over a reference that `Fn::Select` picks out stays unknown although the
      parameter has a value. */
  lemma SelectedCallIsNotJoined(ctx: Context, env: Environment, trust: Trust, name: string)
    requires Setting(ctx, env, trust) && name in ctx.supplied && name in ctx.declared
    requires PseudoOf(name).None? && name !in ctx.resourceIds
    ensures Means(JoinOf("", [SelectFirst(RefTo(name))]), ctx, env) == Plain(Str(ctx.supplied[name]))
    ensures Resolve(JoinOf("", [SelectFirst(RefTo(name))]), ctx, 0).Unknown?
  {
    hide PseudoOf, FnOf, Means, Resolve, Setting, PicksCall;
    assert AgreesOnInputs(ctx, env) by { SettingAgrees(ctx, env, trust); }
    SelectedMeans(ctx, env, name);
    JoinedMeans(SelectFirst(RefTo(name)), ctx, env);
    SelectedResolves(RefTo(name), ctx, 1);
    RefIsCall(name);
    JoinResolves("", [SelectFirst(RefTo(name))], ctx, 0);
    OneUnknownPiece([SelectFirst(RefTo(name))], 0, ctx, 0);
  }

  lemma JoinedMeans(n: Node, ctx: Context, env: Environment)
    requires AgreesOnInputs(ctx, env) && Means(n, ctx, env).Plain? && Means(n, ctx, env).scalar.Str?
    ensures Means(JoinOf("", [n]), ctx, env) == Means(n, ctx, env)
  {
    hide Means;
    var scalar := Means(n, ctx, env).scalar;
    JoinMeansText("", [n], [scalar], ctx, env);
    assert DeployedPieces([scalar], env) == [scalar.s];
  }
}
