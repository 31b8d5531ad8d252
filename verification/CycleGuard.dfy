/** The cycle guard computes the least fixed point of the condition equations.

    The path set only ever cuts a name that is already being evaluated.  Cutting never loses a
    verdict and never invents one. */
module CycleGuard {
  import opened Templates
  import opened Intrinsics
  import opened Monotonicity

  /** A three-valued truth assignment to condition names. */
  type Valuation = string -> Verdict

  /** Every `Equals` in the expression compares operands that consult no condition. */
  predicate PlainOperands(e: Node)
    decreases e
  {
    if !IsCall(e) then true
    else
      var arg := Arg(e);
      match Callee(e)
      case EqualsFn => Takes(arg, 2) ==> ConditionFree(arg.items[0]) && ConditionFree(arg.items[1])
      case NotFn => Takes(arg, 1) ==> PlainOperands(arg.items[0])
      case AndFn => arg.List? ==> forall i :: 0 <= i < |arg.items| ==> PlainOperands(arg.items[i])
      case OrFn => arg.List? ==> forall i :: 0 <= i < |arg.items| ==> PlainOperands(arg.items[i])
      case _ => true
  }

  ghost predicate PlainSystem(ctx: Context) {
    ConditionFree(ctx.mappings) && forall c :: c in ctx.conditions ==> PlainOperands(ctx.conditions[c])
  }

  /** The verdict of a comparison, a constant of the equations: no condition is in sight. */
  function Constant(arg: Node, ctx: Context): Verdict {
    EvaluateEquals(arg, ctx.(conditions := map[]), 0)
  }

  /** One side of the condition equations: Kleene evaluation under an assignment. */
  function Kleene(e: Node, ctx: Context, rho: Valuation): Verdict
    decreases e
  {
    if !IsCall(e) then Undecided
    else
      var arg := Arg(e);
      match Callee(e)
      case ConditionFn => if arg.Leaf? && arg.scalar.Str? then rho(arg.scalar.s) else Undecided
      case EqualsFn => Constant(arg, ctx)
      case NotFn => if Takes(arg, 1) then KleeneNot(Kleene(arg.items[0], ctx, rho)) else Undecided
      case AndFn => if arg.List? then KleeneAnd(KleeneEach(arg.items, ctx, rho)) else Undecided
      case OrFn => if arg.List? then KleeneOr(KleeneEach(arg.items, ctx, rho)) else Undecided
      case _ => Undecided
  }

  function KleeneEach(items: seq<Node>, ctx: Context, rho: Valuation): (vs: seq<Verdict>)
    ensures |vs| == |items|
    ensures forall i :: 0 <= i < |items| ==> vs[i] == Kleene(items[i], ctx, rho)
    decreases items
  {
    seq(|items|, i requires 0 <= i < |items| => Kleene(items[i], ctx, rho))
  }

  /** What the equations demand of one name. */
  function Equation(c: string, ctx: Context, rho: Valuation): Verdict {
    if Defined(ctx, c) then Kleene(ctx.conditions[c], ctx, rho) else Undecided
  }

  /** Evaluation with the path set alone, free of the depth limit. */
  function Guarded(e: Node, ctx: Context, seen: set<string>): Verdict
    decreases |ctx.conditions.Keys - seen|, e
  {
    if !IsCall(e) then Undecided
    else
      var arg := Arg(e);
      match Callee(e)
      case ConditionFn =>
        if arg.Leaf? && arg.scalar.Str? then
          var c := arg.scalar.s;
          if c in seen || !Defined(ctx, c) then Undecided
          else
            FewerLeft(ctx, seen, c);
            Guarded(ctx.conditions[c], ctx, seen + {c})
        else Undecided
      case EqualsFn => Constant(arg, ctx)
      case NotFn => if Takes(arg, 1) then KleeneNot(Guarded(arg.items[0], ctx, seen)) else Undecided
      case AndFn => if arg.List? then KleeneAnd(GuardedEach(arg.items, ctx, seen)) else Undecided
      case OrFn => if arg.List? then KleeneOr(GuardedEach(arg.items, ctx, seen)) else Undecided
      case _ => Undecided
  }

  function GuardedEach(items: seq<Node>, ctx: Context, seen: set<string>): (vs: seq<Verdict>)
    ensures |vs| == |items|
    ensures forall i :: 0 <= i < |items| ==> vs[i] == Guarded(items[i], ctx, seen)
    decreases |ctx.conditions.Keys - seen|, items
  {
    seq(|items|, i requires 0 <= i < |items| => Guarded(items[i], ctx, seen))
  }

  function GuardedName(c: string, ctx: Context, seen: set<string>): Verdict {
    if c in seen || !Defined(ctx, c) then Undecided else Guarded(ctx.conditions[c], ctx, seen + {c})
  }

  lemma FewerLeft(ctx: Context, seen: set<string>, c: string)
    requires c in ctx.conditions && c !in seen
    ensures |ctx.conditions.Keys - (seen + {c})| < |ctx.conditions.Keys - seen|
  {
    assert ctx.conditions.Keys - (seen + {c}) == ctx.conditions.Keys - seen - {c};
  }

  // ----- a relation between two assignments carries over to expressions -----

  lemma {:induction false} KleeneIsMonotone(e: Node, ctx: Context, rho: Valuation, rho': Valuation)
    requires forall c :: VerdictRefines(rho(c), rho'(c))
    ensures VerdictRefines(Kleene(e, ctx, rho), Kleene(e, ctx, rho'))
    decreases e
  {
    hide KleeneAnd, KleeneOr, Constant;
    if IsCall(e) {
      var arg := Arg(e);
      match Callee(e)
      case NotFn => if Takes(arg, 1) { KleeneIsMonotone(arg.items[0], ctx, rho, rho'); }
      case AndFn => if arg.List? { EachIsMonotone(arg.items, ctx, rho, rho'); }
      case OrFn => if arg.List? { EachIsMonotone(arg.items, ctx, rho, rho'); }
      case _ =>
    }
  }

  lemma EachIsMonotone(items: seq<Node>, ctx: Context, rho: Valuation, rho': Valuation)
    requires forall c :: VerdictRefines(rho(c), rho'(c))
    ensures VerdictRefines(KleeneAnd(KleeneEach(items, ctx, rho)), KleeneAnd(KleeneEach(items, ctx, rho')))
    ensures VerdictRefines(KleeneOr(KleeneEach(items, ctx, rho)), KleeneOr(KleeneEach(items, ctx, rho')))
    decreases items
  {
    forall i | 0 <= i < |items|
      ensures VerdictRefines(Kleene(items[i], ctx, rho), Kleene(items[i], ctx, rho'))
    {
      KleeneIsMonotone(items[i], ctx, rho, rho');
    }
    ConnectivesImprove(KleeneEach(items, ctx, rho), KleeneEach(items, ctx, rho'));
  }

  /** If every name still open under `seen` is at most as decided as `rho` says, so is every
      expression: the guard stays below the assignment. */
  lemma {:induction false} GuardStaysBelow(e: Node, ctx: Context, seen: set<string>, rho: Valuation)
    requires forall c :: VerdictRefines(GuardedName(c, ctx, seen), rho(c))
    ensures VerdictRefines(Guarded(e, ctx, seen), Kleene(e, ctx, rho))
    decreases e
  {
    hide KleeneAnd, KleeneOr, Constant;
    if IsCall(e) {
      var arg := Arg(e);
      match Callee(e)
      case ConditionFn =>
        if arg.Leaf? && arg.scalar.Str? {
          assert Guarded(e, ctx, seen) == GuardedName(arg.scalar.s, ctx, seen);
        }
      case NotFn => if Takes(arg, 1) { GuardStaysBelow(arg.items[0], ctx, seen, rho); }
      case AndFn => if arg.List? { EachStaysBelow(arg.items, ctx, seen, rho); }
      case OrFn => if arg.List? { EachStaysBelow(arg.items, ctx, seen, rho); }
      case _ =>
    }
  }

  lemma EachStaysBelow(items: seq<Node>, ctx: Context, seen: set<string>, rho: Valuation)
    requires forall c :: VerdictRefines(GuardedName(c, ctx, seen), rho(c))
    ensures VerdictRefines(KleeneAnd(GuardedEach(items, ctx, seen)), KleeneAnd(KleeneEach(items, ctx, rho)))
    ensures VerdictRefines(KleeneOr(GuardedEach(items, ctx, seen)), KleeneOr(KleeneEach(items, ctx, rho)))
    decreases items
  {
    forall i | 0 <= i < |items|
      ensures VerdictRefines(Guarded(items[i], ctx, seen), Kleene(items[i], ctx, rho))
    {
      GuardStaysBelow(items[i], ctx, seen, rho);
    }
    ConnectivesImprove(GuardedEach(items, ctx, seen), KleeneEach(items, ctx, rho));
  }

  /** The converse: if every open name is at least as decided as `rho` says, so is every
      expression. */
  lemma {:induction false} GuardStaysAbove(e: Node, ctx: Context, seen: set<string>, rho: Valuation)
    requires forall c :: VerdictRefines(rho(c), GuardedName(c, ctx, seen))
    ensures VerdictRefines(Kleene(e, ctx, rho), Guarded(e, ctx, seen))
    decreases e
  {
    hide KleeneAnd, KleeneOr, Constant;
    if IsCall(e) {
      var arg := Arg(e);
      match Callee(e)
      case ConditionFn =>
        if arg.Leaf? && arg.scalar.Str? {
          assert Guarded(e, ctx, seen) == GuardedName(arg.scalar.s, ctx, seen);
        }
      case NotFn => if Takes(arg, 1) { GuardStaysAbove(arg.items[0], ctx, seen, rho); }
      case AndFn => if arg.List? { EachStaysAbove(arg.items, ctx, seen, rho); }
      case OrFn => if arg.List? { EachStaysAbove(arg.items, ctx, seen, rho); }
      case _ =>
    }
  }

  lemma EachStaysAbove(items: seq<Node>, ctx: Context, seen: set<string>, rho: Valuation)
    requires forall c :: VerdictRefines(rho(c), GuardedName(c, ctx, seen))
    ensures VerdictRefines(KleeneAnd(KleeneEach(items, ctx, rho)), KleeneAnd(GuardedEach(items, ctx, seen)))
    ensures VerdictRefines(KleeneOr(KleeneEach(items, ctx, rho)), KleeneOr(GuardedEach(items, ctx, seen)))
    decreases items
  {
    forall i | 0 <= i < |items|
      ensures VerdictRefines(Kleene(items[i], ctx, rho), Guarded(items[i], ctx, seen))
    {
      GuardStaysAbove(items[i], ctx, seen, rho);
    }
    ConnectivesImprove(KleeneEach(items, ctx, rho), GuardedEach(items, ctx, seen));
  }

  // ----- iteration from below -----

  /** `k` rounds of the equations, starting with everything undecided and with the names in
      `seen` held undecided throughout. */
  ghost function Rounds(k: nat, ctx: Context, seen: set<string>, c: string): Verdict
    decreases k
  {
    if k == 0 || c in seen then Undecided else Equation(c, ctx, d => Rounds(k - 1, ctx, seen, d))
  }

  lemma {:induction false} RoundsAscend(k: nat, ctx: Context, seen: set<string>, c: string)
    ensures VerdictRefines(Rounds(k, ctx, seen, c), Rounds(k + 1, ctx, seen, c))
    decreases k
  {
    hide Kleene;
    if k > 0 && c !in seen && Defined(ctx, c) {
      forall d ensures VerdictRefines(Rounds(k - 1, ctx, seen, d), Rounds(k, ctx, seen, d)) {
        RoundsAscend(k - 1, ctx, seen, d);
      }
      KleeneIsMonotone(ctx.conditions[c], ctx, d => Rounds(k - 1, ctx, seen, d), d => Rounds(k, ctx, seen, d));
    }
  }

  /** Holding back a name that is still undecided after `k` rounds changes nothing so far. */
  lemma {:induction false} HoldingBackAnOpenName(k: nat, ctx: Context, seen: set<string>, c: string, d: string)
    requires Rounds(k, ctx, seen, c) == Undecided
    ensures VerdictRefines(Rounds(k, ctx, seen, d), Rounds(k, ctx, seen + {c}, d))
    decreases k
  {
    hide Kleene;
    if k > 0 && d !in seen && d != c && Defined(ctx, d) {
      var j: nat, held := k - 1, seen + {c};
      RoundsAscend(j, ctx, seen, c);
      forall x ensures VerdictRefines(Rounds(j, ctx, seen, x), Rounds(j, ctx, held, x)) {
        HoldingBackAnOpenName(j, ctx, seen, c, x);
      }
      KleeneIsMonotone(ctx.conditions[d], ctx, x => Rounds(j, ctx, seen, x), x => Rounds(j, ctx, held, x));
    }
  }

  /** Whatever some number of rounds decides, the guard decides: cutting loses nothing. */
  lemma {:induction false} GuardReachesRounds(k: nat, ctx: Context, seen: set<string>, c: string)
    ensures VerdictRefines(Rounds(k, ctx, seen, c), GuardedName(c, ctx, seen))
    decreases k
  {
    hide Kleene, Guarded;
    if k > 0 && c !in seen && Defined(ctx, c) {
      if Rounds(k - 1, ctx, seen, c) != Undecided {
        RoundsAscend(k - 1, ctx, seen, c);
        GuardReachesRounds(k - 1, ctx, seen, c);
      } else {
        var inner := seen + {c};
        forall d ensures VerdictRefines(Rounds(k - 1, ctx, seen, d), GuardedName(d, ctx, inner)) {
          HoldingBackAnOpenName(k - 1, ctx, seen, c, d);
          GuardReachesRounds(k - 1, ctx, inner, d);
        }
        GuardStaysAbove(ctx.conditions[c], ctx, inner, d => Rounds(k - 1, ctx, seen, d));
      }
    }
  }

  /** The guard decides nothing that the equations do not force. */
  lemma {:induction false} GuardIsForced(c: string, ctx: Context, seen: set<string>, rho: Valuation)
    requires forall d :: VerdictRefines(Equation(d, ctx, rho), rho(d))
    ensures VerdictRefines(GuardedName(c, ctx, seen), rho(c))
    decreases |ctx.conditions.Keys - seen|
  {
    if c !in seen && Defined(ctx, c) {
      FewerLeft(ctx, seen, c);
      forall d ensures VerdictRefines(GuardedName(d, ctx, seen + {c}), rho(d)) {
        GuardIsForced(d, ctx, seen + {c}, rho);
      }
      GuardStaysBelow(ctx.conditions[c], ctx, seen + {c}, rho);
    }
  }

  /** As many rounds as there are open names catch everything the guard decides. */
  lemma {:induction false} RoundsCatchUp(c: string, ctx: Context, seen: set<string>)
    ensures VerdictRefines(GuardedName(c, ctx, seen), Rounds(|ctx.conditions.Keys - seen|, ctx, {}, c))
    decreases |ctx.conditions.Keys - seen|
  {
    if c !in seen && Defined(ctx, c) {
      var inner := seen + {c};
      var k, j := |ctx.conditions.Keys - seen|, |ctx.conditions.Keys - inner|;
      FewerLeft(ctx, seen, c);
      assert ctx.conditions.Keys - seen == (ctx.conditions.Keys - inner) + {c};
      assert k == j + 1;
      forall d ensures VerdictRefines(GuardedName(d, ctx, inner), Rounds(j, ctx, {}, d)) {
        RoundsCatchUp(d, ctx, inner);
      }
      GuardStaysBelow(ctx.conditions[c], ctx, inner, d => Rounds(j, ctx, {}, d));
    }
  }

  // ----- main results -----

  /** The assignment the guard computes from an empty path. */
  function GuardValuation(ctx: Context): Valuation {
    c => GuardedName(c, ctx, {})
  }

  /** It is a fixed point of the condition equations. */
  lemma GuardIsAFixedPoint(c: string, ctx: Context)
    ensures GuardValuation(ctx)(c) == Equation(c, ctx, GuardValuation(ctx))
  {
    if Defined(ctx, c) {
      var rho, k := GuardValuation(ctx), |ctx.conditions.Keys - {}|;
      var e := ctx.conditions[c];
      // upwards: a longer path decides no more than the empty one
      forall d ensures VerdictRefines(GuardedName(d, ctx, {} + {c}), rho(d)) {
        LongerPathDecidesLess(d, ctx, {}, {c});
      }
      GuardStaysBelow(e, ctx, {} + {c}, rho);
      // downwards: everything the guard decides shows up after k rounds
      forall d ensures VerdictRefines(rho(d), Rounds(k, ctx, {}, d)) {
        RoundsCatchUp(d, ctx, {});
      }
      KleeneIsMonotone(e, ctx, rho, d => Rounds(k, ctx, {}, d));
      assert Rounds(k + 1, ctx, {}, c) == Kleene(e, ctx, d => Rounds(k, ctx, {}, d));
      GuardReachesRounds(k + 1, ctx, {}, c);
    }
  }

  lemma {:induction false} LongerPathDecidesLess(c: string, ctx: Context, seen: set<string>, longer: set<string>)
    requires seen <= longer
    ensures VerdictRefines(GuardedName(c, ctx, longer), GuardedName(c, ctx, seen))
    decreases |ctx.conditions.Keys - longer|
  {
    if c !in longer && Defined(ctx, c) {
      FewerLeft(ctx, longer, c);
      forall d ensures VerdictRefines(GuardedName(d, ctx, longer + {c}), GuardedName(d, ctx, seen + {c})) {
        LongerPathDecidesLess(d, ctx, seen + {c}, longer + {c});
      }
      var rho := d => GuardedName(d, ctx, seen + {c});
      GuardStaysBelow(ctx.conditions[c], ctx, longer + {c}, rho);
      GuardStaysAbove(ctx.conditions[c], ctx, seen + {c}, rho);
    }
  }

  /** And the least one: it lies below every assignment closed under the equations. */
  lemma GuardIsLeast(c: string, ctx: Context, rho: Valuation)
    requires forall d :: VerdictRefines(Equation(d, ctx, rho), rho(d))
    ensures VerdictRefines(GuardValuation(ctx)(c), rho(c))
  {
    GuardIsForced(c, ctx, {}, rho);
  }

  // ----- the depth limit -----

  /** No call in the evaluation of the expression is cut short by the depth limit. */
  predicate WithinDepth(e: Node, ctx: Context, depth: nat, seen: set<string>)
    decreases Remaining(depth)
  {
    && depth <= MAX_DEPTH
    && (IsCall(e) ==>
          var arg := Arg(e);
          match Callee(e)
          case ConditionFn => arg.Leaf? && arg.scalar.Str? ==> NameWithinDepth(arg.scalar.s, ctx, depth + 1, seen)
          case EqualsFn => EvaluateEquals(arg, ctx, depth + 1) == EvaluateEquals(arg, ctx, 0)
          case NotFn => Takes(arg, 1) ==> WithinDepth(arg.items[0], ctx, depth + 1, seen)
          case AndFn => arg.List? ==> forall i :: 0 <= i < |arg.items| ==> WithinDepth(arg.items[i], ctx, depth + 1, seen)
          case OrFn => arg.List? ==> forall i :: 0 <= i < |arg.items| ==> WithinDepth(arg.items[i], ctx, depth + 1, seen)
          case _ => true)
  }

  predicate NameWithinDepth(c: string, ctx: Context, depth: nat, seen: set<string>)
    decreases Remaining(depth)
  {
    && depth <= MAX_DEPTH
    && (c !in seen && Defined(ctx, c) ==> WithinDepth(ctx.conditions[c], ctx, depth + 1, seen + {c}))
  }

  /** The evaluator never decides more than the guard alone, and decides as much unless the
      depth limit interferes. */
  ghost predicate Tracks(v: Verdict, guarded: Verdict, within: bool) {
    VerdictRefines(v, guarded) && (within ==> v == guarded)
  }

  lemma {:induction false} NameTracks(c: string, ctx: Context, depth: nat, seen: set<string>)
    requires PlainSystem(ctx)
    ensures Tracks(EvaluateCondition(Leaf(Str(c)), ctx, depth, seen), GuardedName(c, ctx, seen),
                   NameWithinDepth(c, ctx, depth, seen))
    decreases Remaining(depth), 1
  {
    hide EvaluateExpression, Guarded, WithinDepth;
    if depth <= MAX_DEPTH && c !in seen && Defined(ctx, c) {
      ExpressionTracks(ctx.conditions[c], ctx, depth + 1, seen + {c});
    }
  }

  /** What tracking means for one expression. */
  ghost predicate ExpressionDoes(e: Node, ctx: Context, depth: nat, seen: set<string>) {
    Tracks(EvaluateExpression(e, ctx, depth, seen), Guarded(e, ctx, seen), WithinDepth(e, ctx, depth, seen))
  }

  lemma {:induction false} ExpressionTracks(e: Node, ctx: Context, depth: nat, seen: set<string>)
    requires PlainSystem(ctx) && PlainOperands(e)
    ensures Tracks(EvaluateExpression(e, ctx, depth, seen), Guarded(e, ctx, seen), WithinDepth(e, ctx, depth, seen))
    decreases Remaining(depth), 1
  {
    hide EvaluateExpression, Guarded, WithinDepth, Tracks, Takes;
    if depth > MAX_DEPTH || !IsCall(e) {
      NoCallTracks(e, ctx, depth, seen);
    } else if Callee(e).ConditionFn? {
      ConditionTracks(e, ctx, depth, seen);
    } else if Callee(e).NotFn? {
      NotTracks(e, ctx, depth, seen);
    } else if (Callee(e).AndFn? || Callee(e).OrFn?) && Arg(e).List? {
      GroupTracks(e, ctx, depth, seen);
    } else {
      OtherTracks(e, ctx, depth, seen);
    }
  }

  lemma NoCallTracks(e: Node, ctx: Context, depth: nat, seen: set<string>)
    requires depth > MAX_DEPTH || !IsCall(e)
    ensures ExpressionDoes(e, ctx, depth, seen)
  {
    hide EvaluateCondition, EvaluateEach, EvaluateEquals, EvaluateNot;
  }

  lemma OtherTracks(e: Node, ctx: Context, depth: nat, seen: set<string>)
    requires PlainSystem(ctx) && PlainOperands(e) && depth <= MAX_DEPTH && IsCall(e)
    requires !Callee(e).ConditionFn? && !Callee(e).NotFn? && !((Callee(e).AndFn? || Callee(e).OrFn?) && Arg(e).List?)
    ensures ExpressionDoes(e, ctx, depth, seen)
  {
    hide EvaluateCondition, EvaluateEach, EvaluateEquals, EvaluateNot, KleeneAnd, KleeneOr, GuardedEach, Constant;
    if Callee(e).EqualsFn? { EqualsTracks(Arg(e), ctx, depth + 1); }
  }

  lemma ConditionTracks(e: Node, ctx: Context, depth: nat, seen: set<string>)
    requires PlainSystem(ctx) && depth <= MAX_DEPTH && IsCall(e) && Callee(e).ConditionFn?
    ensures ExpressionDoes(e, ctx, depth, seen)
    decreases Remaining(depth), 0
  {
    hide EvaluateCondition;
    var arg := Arg(e);
    if arg.Leaf? && arg.scalar.Str? {
      NameTracks(arg.scalar.s, ctx, depth + 1, seen);
      assert Guarded(e, ctx, seen) == GuardedName(arg.scalar.s, ctx, seen);
    }
  }

  lemma GroupTracks(e: Node, ctx: Context, depth: nat, seen: set<string>)
    requires PlainSystem(ctx) && PlainOperands(e) && depth <= MAX_DEPTH && IsCall(e)
    requires (Callee(e).AndFn? || Callee(e).OrFn?) && Arg(e).List?
    ensures ExpressionDoes(e, ctx, depth, seen)
    decreases Remaining(depth), 0
  {
    hide EvaluateExpression, Guarded, WithinDepth, PlainOperands, EvaluateEach, KleeneAnd, KleeneOr, GuardedEach;
    GroupUnfolds(e, ctx, depth, seen);
    PartsArePlain(e);
    EachTracks(Arg(e).items, ctx, depth + 1, seen);
  }

  lemma PartsArePlain(e: Node)
    requires IsCall(e) && PlainOperands(e) && Arg(e).List?
    requires Callee(e).AndFn? || Callee(e).OrFn? || (Callee(e).NotFn? && Takes(Arg(e), 1))
    ensures forall i :: 0 <= i < |Arg(e).items| ==> PlainOperands(Arg(e).items[i])
  {
    hide FnOf, ConditionFree;
  }

  lemma GroupUnfolds(e: Node, ctx: Context, depth: nat, seen: set<string>)
    requires depth <= MAX_DEPTH && IsCall(e) && (Callee(e).AndFn? || Callee(e).OrFn?) && Arg(e).List?
    ensures var vs, gs := EvaluateEach(Arg(e).items, ctx, depth + 1, seen), GuardedEach(Arg(e).items, ctx, seen);
            && EvaluateExpression(e, ctx, depth, seen) == (if Callee(e).AndFn? then KleeneAnd(vs) else KleeneOr(vs))
            && Guarded(e, ctx, seen) == (if Callee(e).AndFn? then KleeneAnd(gs) else KleeneOr(gs))
            && WithinDepth(e, ctx, depth, seen)
               == forall i :: 0 <= i < |Arg(e).items| ==> WithinDepth(Arg(e).items[i], ctx, depth + 1, seen)
  {
    hide EvaluateEach, GuardedEach, KleeneAnd, KleeneOr;
  }

  lemma EqualsTracks(arg: Node, ctx: Context, depth: nat)
    requires ConditionFree(ctx.mappings)
    requires Takes(arg, 2) ==> ConditionFree(arg.items[0]) && ConditionFree(arg.items[1])
    ensures Tracks(EvaluateEquals(arg, ctx, depth), Constant(arg, ctx), EvaluateEquals(arg, ctx, depth) == EvaluateEquals(arg, ctx, 0))
  {
    hide Resolve;
    EqualsImproves(arg, ctx, ctx, depth, 0);
    if Takes(arg, 2) {
      ConditionsAreIrrelevant(arg.items[0], ctx, map[], 0);
      ConditionsAreIrrelevant(arg.items[1], ctx, map[], 0);
    }
  }

  lemma NotTracks(e: Node, ctx: Context, depth: nat, seen: set<string>)
    requires PlainSystem(ctx) && PlainOperands(e) && depth <= MAX_DEPTH && IsCall(e) && Callee(e).NotFn?
    ensures ExpressionDoes(e, ctx, depth, seen)
    decreases Remaining(depth), 0
  {
    hide EvaluateExpression, Guarded, WithinDepth, PlainOperands;
    NotUnfolds(e, ctx, depth, seen);
    if Takes(Arg(e), 1) { PartsArePlain(e); }
    if Takes(Arg(e), 1) { ExpressionTracks(Arg(e).items[0], ctx, depth + 1, seen); }
  }

  lemma NotUnfolds(e: Node, ctx: Context, depth: nat, seen: set<string>)
    requires depth <= MAX_DEPTH && IsCall(e) && Callee(e).NotFn?
    ensures var one := Takes(Arg(e), 1);
            && EvaluateExpression(e, ctx, depth, seen)
               == (if one then KleeneNot(EvaluateExpression(Arg(e).items[0], ctx, depth + 1, seen)) else Undecided)
            && Guarded(e, ctx, seen) == (if one then KleeneNot(Guarded(Arg(e).items[0], ctx, seen)) else Undecided)
            && WithinDepth(e, ctx, depth, seen) == (one ==> WithinDepth(Arg(e).items[0], ctx, depth + 1, seen))
  {
    assert EvaluateExpression(e, ctx, depth, seen) == EvaluateNot(Arg(e), ctx, depth + 1, seen);
  }

  lemma EachTracks(items: seq<Node>, ctx: Context, depth: nat, seen: set<string>)
    requires PlainSystem(ctx) && forall i :: 0 <= i < |items| ==> PlainOperands(items[i])
    ensures var within := forall i :: 0 <= i < |items| ==> WithinDepth(items[i], ctx, depth, seen);
            && Tracks(KleeneAnd(EvaluateEach(items, ctx, depth, seen)), KleeneAnd(GuardedEach(items, ctx, seen)), within)
            && Tracks(KleeneOr(EvaluateEach(items, ctx, depth, seen)), KleeneOr(GuardedEach(items, ctx, seen)), within)
    decreases Remaining(depth), 2
  {
    hide EvaluateExpression, Guarded, WithinDepth;
    var vs, gs := EvaluateEach(items, ctx, depth, seen), GuardedEach(items, ctx, seen);
    forall i | 0 <= i < |items|
      ensures Tracks(vs[i], gs[i], WithinDepth(items[i], ctx, depth, seen))
    {
      ExpressionTracks(items[i], ctx, depth, seen);
    }
    ConnectivesImprove(vs, gs);
    if forall i :: 0 <= i < |items| ==> WithinDepth(items[i], ctx, depth, seen) { assert vs == gs; }
  }

  function ConditionValuation(ctx: Context): Valuation {
    c => EvaluateCondition(Leaf(Str(c)), ctx, 0, {})
  }

  /** While the depth limit is not hit, evaluating each condition by name is exactly the least
      solution of the condition equations: a solution, and below every assignment closed under
      them. */
  lemma ConditionsAreTheLeastFixedPoint(ctx: Context, c: string, rho: Valuation)
    requires PlainSystem(ctx) && forall d :: NameWithinDepth(d, ctx, 0, {})
    ensures ConditionValuation(ctx)(c) == Equation(c, ctx, ConditionValuation(ctx))
    ensures (forall d :: VerdictRefines(Equation(d, ctx, rho), rho(d))) ==> VerdictRefines(ConditionValuation(ctx)(c), rho(c))
  {
    hide EvaluateCondition, Guarded, Kleene, NameWithinDepth;
    var v, g := ConditionValuation(ctx), GuardValuation(ctx);
    forall d ensures v(d) == g(d) {
      NameTracks(d, ctx, 0, {});
    }
    GuardIsAFixedPoint(c, ctx);
    if Defined(ctx, c) {
      KleeneIsMonotone(ctx.conditions[c], ctx, v, g);
      KleeneIsMonotone(ctx.conditions[c], ctx, g, v);
    }
    if forall d :: VerdictRefines(Equation(d, ctx, rho), rho(d)) {
      GuardIsLeast(c, ctx, rho);
    }
  }

  /** At any depth a decided condition is one the equations force. */
  lemma DecidedMeansForced(ctx: Context, c: string, depth: nat, seen: set<string>, rho: Valuation)
    requires PlainSystem(ctx) && forall d :: VerdictRefines(Equation(d, ctx, rho), rho(d))
    ensures VerdictRefines(EvaluateCondition(Leaf(Str(c)), ctx, depth, seen), rho(c))
  {
    NameTracks(c, ctx, depth, seen);
    GuardIsForced(c, ctx, seen, rho);
  }
}
