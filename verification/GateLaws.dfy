/** Worse facts never open the gate further. */
module GateLaws {
  import opened Templates
  import opened Lattices
  import opened Diff
  import opened Decisions
  import opened Budgets
  import opened BudgetLaws
  import opened Policies

  /** A change that is at least as objectionable: same operation and type, no extra tags. */
  ghost predicate NoBetter(c: ResourceChange, d: ResourceChange) {
    && c.operation == d.operation && c.resourceType == d.resourceType
    && (c.operation.Add? && c.after.Some? ==> d.after.Some? && LowerAll(d.after.value.tags.Keys) <= LowerAll(c.after.value.tags.Keys))
  }

  /** Evaluations of one configured budget, the second of which uses more of it. */
  ghost predicate HigherUse(config: seq<Budget>, e: BudgetEvaluation, f: BudgetEvaluation) {
    exists b, x, y :: b in config && e == EvaluateBudget(b, x) && f == EvaluateBudget(b, y) && UsesMore(b, x, y)
  }

  /** Facts that are worse in every respect a predicate can see, for the same current cost,
      deployed to the same place. */
  ghost predicate Worse(config: seq<Budget>, f: Facts, g: Facts) {
    && g.totals.current == f.totals.current
    && f.totals.delta <= g.totals.delta
    && f.totals.oneTime <= g.totals.oneTime
    && f.totals.unknownCount <= g.totals.unknownCount
    && ConfidenceRank(g.confidence) <= ConfidenceRank(f.confidence)
    && f.unknownTypes <= g.unknownTypes
    && (forall c :: c in f.changes ==> exists d :: d in g.changes && NoBetter(c, d))
    && (forall e :: e in f.budgets ==> exists h :: h in g.budgets && HigherUse(config, e, h))
    && g.region == f.region && g.environment == f.environment && g.application == f.application
  }

  /** Conditions that sit under an even number of negations, and under an odd number. */
  ghost predicate Rising(c: Condition) {
    match c
    case AllOf(cs) => forall i :: 0 <= i < |cs| ==> Rising(cs[i])
    case AnyOf(cs) => forall i :: 0 <= i < |cs| ==> Rising(cs[i])
    case Negate(inner) => Falling(inner)
    case _ => true
  }

  ghost predicate Falling(c: Condition) {
    match c
    case AllOf(cs) => forall i :: 0 <= i < |cs| ==> Falling(cs[i])
    case AnyOf(cs) => forall i :: 0 <= i < |cs| ==> Falling(cs[i])
    case Negate(inner) => Rising(inner)
    case _ => false
  }

  ghost predicate IsLeaf(c: Condition) {
    !c.AllOf? && !c.AnyOf? && !c.Negate?
  }

  // ----- single predicates -----

  lemma PercentGrows(delta: real, delta': real, current: real)
    requires current > 0.0 && delta <= delta'
    ensures delta / current * 100.0 <= delta' / current * 100.0
  {
    ScaledMore(delta, delta', current);
  }

  lemma BudgetsStayOver(config: seq<Budget>, e: BudgetEvaluation, h: BudgetEvaluation)
    requires HigherUse(config, e, h)
    ensures e.delta <= h.delta
    ensures e.utilization.Some? ==> h.utilization.Some? && e.utilization.value <= h.utilization.value
  {
    hide Crossed, Measured;
    var b, x, y :| b in config && e == EvaluateBudget(b, x) && h == EvaluateBudget(b, y) && UsesMore(b, x, y);
    if e.utilization.Some? { ScaledMore(Measured(b, x), Measured(b, y), b.limit.value); }
  }

  lemma LeafKeepsMatching(config: seq<Budget>, c: Condition, f: Facts, g: Facts)
    requires IsLeaf(c) && Worse(config, f, g) && Matches(c, f)
    ensures Matches(c, g)
  {
    hide HigherUse, NoBetter, LacksTag, Over;
    match c
    case DeltaPercentGreaterThan(_) =>
      PercentGrows(f.totals.delta, g.totals.delta, f.totals.current);
    case TypesChanged(operation, types) =>
      TypesStayChanged(config, f, g, operation, types);
    case UtilizationGreaterThan(percent) =>
      UtilizationStaysOver(config, f, g, percent);
    case BudgetIncreaseExceeds(limit) =>
      IncreaseStaysOver(config, f, g, limit);
    case TagsMissing(required) =>
      TagsStayMissing(config, f, g, required);
    case _ =>
  }

  lemma TypesStayChanged(config: seq<Budget>, f: Facts, g: Facts, operation: Operation, types: seq<string>)
    requires Worse(config, f, g) && Matches(TypesChanged(operation, types), f)
    ensures Matches(TypesChanged(operation, types), g)
  {
    hide HigherUse;
    var i :| 0 <= i < |f.changes| && f.changes[i].operation == operation && f.changes[i].resourceType in types;
    assert f.changes[i] in f.changes;
    var d :| d in g.changes && NoBetter(f.changes[i], d);
    var j :| 0 <= j < |g.changes| && g.changes[j] == d;
  }

  lemma TagsStayMissing(config: seq<Budget>, f: Facts, g: Facts, required: seq<string>)
    requires Worse(config, f, g) && Matches(TagsMissing(required), f)
    ensures Matches(TagsMissing(required), g)
  {
    hide HigherUse, LowerAll;
    var i :| 0 <= i < |f.changes| && LacksTag(f.changes[i], required);
    assert f.changes[i] in f.changes;
    var d :| d in g.changes && NoBetter(f.changes[i], d);
    var j :| 0 <= j < |g.changes| && g.changes[j] == d;
    assert LacksTag(g.changes[j], required);
  }

  lemma UtilizationStaysOver(config: seq<Budget>, f: Facts, g: Facts, percent: real)
    requires Worse(config, f, g) && Matches(UtilizationGreaterThan(percent), f)
    ensures Matches(UtilizationGreaterThan(percent), g)
  {
    hide HigherUse, NoBetter;
    var i :| 0 <= i < |f.budgets| && Over(f.budgets[i], percent);
    assert f.budgets[i] in f.budgets;
    var h :| h in g.budgets && HigherUse(config, f.budgets[i], h);
    BudgetsStayOver(config, f.budgets[i], h);
    var j :| 0 <= j < |g.budgets| && g.budgets[j] == h;
    assert Over(g.budgets[j], percent);
  }

  lemma IncreaseStaysOver(config: seq<Budget>, f: Facts, g: Facts, limit: real)
    requires Worse(config, f, g) && Matches(BudgetIncreaseExceeds(limit), f)
    ensures Matches(BudgetIncreaseExceeds(limit), g)
  {
    hide HigherUse, NoBetter;
    var i :| 0 <= i < |f.budgets| && f.budgets[i].delta > limit;
    assert f.budgets[i] in f.budgets;
    var h :| h in g.budgets && HigherUse(config, f.budgets[i], h);
    BudgetsStayOver(config, f.budgets[i], h);
    var j :| 0 <= j < |g.budgets| && g.budgets[j] == h;
  }

  // ----- conditions -----

  /** A condition's polarity decides which way worse facts can move it. */
  lemma {:induction false} PolarityDecides(config: seq<Budget>, c: Condition, f: Facts, g: Facts)
    requires Worse(config, f, g)
    ensures Rising(c) && Matches(c, f) ==> Matches(c, g)
    ensures Falling(c) && Matches(c, g) ==> Matches(c, f)
    decreases c
  {
    hide Worse;
    if c.AllOf? || c.AnyOf? {
      forall i | 0 <= i < |c.conditions|
        ensures Rising(c.conditions[i]) && Matches(c.conditions[i], f) ==> Matches(c.conditions[i], g)
        ensures Falling(c.conditions[i]) && Matches(c.conditions[i], g) ==> Matches(c.conditions[i], f)
      {
        PolarityDecides(config, c.conditions[i], f, g);
      }
    } else if c.Negate? {
      PolarityDecides(config, c.inner, f, g);
    } else if Matches(c, f) {
      LeafKeepsMatching(config, c, f, g);
    }
  }

  ghost predicate NegationFree(c: Condition) {
    match c
    case AllOf(cs) => forall i :: 0 <= i < |cs| ==> NegationFree(cs[i])
    case AnyOf(cs) => forall i :: 0 <= i < |cs| ==> NegationFree(cs[i])
    case Negate(_) => false
    case _ => true
  }

  lemma {:induction false} NegationFreeRises(c: Condition)
    requires NegationFree(c)
    ensures Rising(c)
    decreases c
  {
    if c.AllOf? || c.AnyOf? {
      forall i | 0 <= i < |c.conditions| ensures Rising(c.conditions[i]) { NegationFreeRises(c.conditions[i]); }
    }
  }

  /** A negation-free policy that fires keeps firing on worse facts. */
  lemma PolicyKeepsFiring(config: seq<Budget>, p: Policy, f: Facts, g: Facts)
    requires NegationFree(p.condition) && Worse(config, f, g) && Fires(p, f)
    ensures Fires(p, g)
  {
    hide Matches, AppliesTo, HigherUse, NoBetter;
    NegationFreeRises(p.condition);
    PolarityDecides(config, p.condition, f, g);
  }

  // ----- the whole gate -----

  ghost predicate DistinctIds(config: seq<Budget>) {
    forall b, c :: b in config && c in config && b.id == c.id ==> b == c
  }

  ghost function Gate(policies: seq<Policy>, config: seq<Budget>, f: Facts): GateDecision {
    BuildDecision(EvaluatePolicies(policies, f) + BudgetPolicies(config, f.budgets), f.totals, [])
  }

  lemma CoveredJoins(xs: seq<PolicyEvaluation>, ys: seq<PolicyEvaluation>, xs': seq<PolicyEvaluation>, ys': seq<PolicyEvaluation>)
    requires Covered(xs, ys) && Covered(xs', ys')
    ensures Covered(xs + xs', ys + ys')
  {
    forall x | x in xs + xs' && Fired(x)
      ensures exists y :: y in ys + ys' && Fired(y) && ResultRank(ToResult(x.action.value)) <= ResultRank(ToResult(y.action.value))
    {
      if x in xs {
        var y :| y in ys && Fired(y) && ResultRank(ToResult(x.action.value)) <= ResultRank(ToResult(y.action.value));
        assert y in ys + ys';
      } else {
        var y :| y in ys' && Fired(y) && ResultRank(ToResult(x.action.value)) <= ResultRank(ToResult(y.action.value));
        assert y in ys + ys';
      }
    }
  }

  lemma PoliciesAreCovered(policies: seq<Policy>, config: seq<Budget>, f: Facts, g: Facts)
    requires Worse(config, f, g) && forall p :: p in policies ==> Rising(p.condition)
    ensures Covered(EvaluatePolicies(policies, f), EvaluatePolicies(policies, g))
  {
    hide Worse, Matches, Rising, EvaluatePolicies, IsBlank, AppliesTo;
    var xs, ys := EvaluatePolicies(policies, f), EvaluatePolicies(policies, g);
    forall x | x in xs && Fired(x)
      ensures exists y :: y in ys && Fired(y) && ResultRank(ToResult(x.action.value)) <= ResultRank(ToResult(y.action.value))
    {
      var i :| 0 <= i < |xs| && xs[i] == x;
      PolarityDecides(config, policies[i].condition, f, g);
      SamePlace(config, policies[i], f, g);
      assert ys[i] in ys;
    }
  }

  lemma SamePlace(config: seq<Budget>, p: Policy, f: Facts, g: Facts)
    requires Worse(config, f, g)
    ensures AppliesTo(p.scope, f.environment, f.application) == AppliesTo(p.scope, g.environment, g.application)
  {
    hide HigherUse, NoBetter;
  }

  lemma BudgetIsFound(config: seq<Budget>, b: Budget)
    requires b in config && DistinctIds(config)
    ensures BudgetById(config, b.id) == Some(b)
  {
    hide BudgetById;
    assert BudgetById(config, b.id).Some?;
  }

  lemma FindingsAreCovered(config: seq<Budget>, e: BudgetEvaluation, h: BudgetEvaluation)
    requires DistinctIds(config) && HigherUse(config, e, h)
    ensures Covered(BudgetFindings(config, e), BudgetFindings(config, h))
  {
    hide ThresholdEvaluation, IncreaseEvaluation, BudgetById, DistinctIds, UsesMore, Covered, Crossed, Utilization, Measured;
    var b, x, y :| b in config && e == EvaluateBudget(b, x) && h == EvaluateBudget(b, y) && UsesMore(b, x, y);
    BudgetIsFound(config, b);
    MoreUseKeepsFindings(b, x, y);
    CoveredJoins(ThresholdEvaluation(b, e), ThresholdEvaluation(b, h), IncreaseEvaluation(b, e), IncreaseEvaluation(b, h));
  }

  lemma {:induction false} BudgetPoliciesMembers(config: seq<Budget>, es: seq<BudgetEvaluation>, x: PolicyEvaluation)
    ensures x in BudgetPolicies(config, es) <==> exists e :: e in es && x in BudgetFindings(config, e)
    decreases |es|
  {
    hide BudgetFindings;
    if es != [] {
      BudgetPoliciesMembers(config, es[1..], x);
      assert es == [es[0]] + es[1..];
    }
  }

  lemma BudgetsAreCovered(config: seq<Budget>, f: Facts, g: Facts)
    requires DistinctIds(config) && Worse(config, f, g)
    ensures Covered(BudgetPolicies(config, f.budgets), BudgetPolicies(config, g.budgets))
  {
    hide HigherUse, NoBetter, BudgetFindings, DistinctIds, BudgetPolicies;
    forall x | x in BudgetPolicies(config, f.budgets) && Fired(x)
      ensures exists y :: y in BudgetPolicies(config, g.budgets) && Fired(y)
                          && ResultRank(ToResult(x.action.value)) <= ResultRank(ToResult(y.action.value))
    {
      BudgetPoliciesMembers(config, f.budgets, x);
      var e :| e in f.budgets && x in BudgetFindings(config, e);
      var h :| h in g.budgets && HigherUse(config, e, h);
      FindingsAreCovered(config, e, h);
      var y :| y in BudgetFindings(config, h) && Fired(y) && ResultRank(ToResult(x.action.value)) <= ResultRank(ToResult(y.action.value));
      BudgetPoliciesMembers(config, g.budgets, y);
    }
  }

  /** End to end: with policies whose predicates sit under no odd negation, and budgets told apart
      by their identifiers, worse facts never lower the gate's result. */
  lemma GateIsMonotone(policies: seq<Policy>, config: seq<Budget>, f: Facts, g: Facts)
    requires (forall p :: p in policies ==> Rising(p.condition)) && DistinctIds(config) && Worse(config, f, g)
    ensures ResultRank(Gate(policies, config, f).result) <= ResultRank(Gate(policies, config, g).result)
  {
    hide Worse, EvaluatePolicies, BudgetPolicies, Covered, Rising, DistinctIds, Highest, Results, FiredOnly, ReasonsFor;
    PoliciesAreCovered(policies, config, f, g);
    BudgetsAreCovered(config, f, g);
    var xs, ys := EvaluatePolicies(policies, f) + BudgetPolicies(config, f.budgets), EvaluatePolicies(policies, g) + BudgetPolicies(config, g.budgets);
    CoveredJoins(EvaluatePolicies(policies, f), EvaluatePolicies(policies, g), BudgetPolicies(config, f.budgets), BudgetPolicies(config, g.budgets));
    CoveredNeverLowers(xs, ys);
    FiredMembers(xs);
    FiredMembers(ys);
  }

  // ----- why the hypotheses are there -----

  /** One negation is enough: a rule about few unknowns falls silent when an unknown is added. */
  lemma NegationCanOpenTheGate(count: int, f: Facts, config: seq<Budget>)
    requires f.totals.unknownCount == count && f.budgets == []
    ensures var rule, g := Negate(UnknownCountGreaterThan(count)), f.(totals := f.totals.(unknownCount := count + 1));
            Worse(config, f, g) && Matches(rule, f) && !Matches(rule, g)
  {
    var g := f.(totals := f.totals.(unknownCount := count + 1));
    forall c | c in f.changes ensures exists d :: d in g.changes && NoBetter(c, d) {
      assert NoBetter(c, c);
    }
  }

  /** The same increase on top of another current cost. */
  function OnTopOf(f: Facts, current: real): Facts {
    f.(totals := f.totals.(current := current, proposed := current + f.totals.delta))
  }

  /** A percentage rule that fires falls silent once the same increase meets a large enough
      current cost, so the current cost has to be held fixed. */
  lemma LargerBaselineSilencesPercent(f: Facts, percent: real)
    requires percent > 0.0 && Matches(DeltaPercentGreaterThan(percent), f)
    ensures exists current :: current >= f.totals.current
              && !Matches(DeltaPercentGreaterThan(percent), OnTopOf(f, current))
  {
    var delta, current := f.totals.delta, f.totals.current;
    var larger := current + Magnitude(delta) * 100.0 / percent;
    assert Magnitude(delta) * 100.0 / percent >= 0.0;
    assert larger >= current > 0.0;
    assert larger * percent >= Magnitude(delta) * 100.0 by {
      assert (Magnitude(delta) * 100.0 / percent) * percent == Magnitude(delta) * 100.0;
      assert larger * percent == current * percent + Magnitude(delta) * 100.0 / percent * percent;
      assert current * percent >= 0.0;
    }
    NotAbove(delta, larger, percent);
    assert !Matches(DeltaPercentGreaterThan(percent), OnTopOf(f, larger));
  }

  lemma NotAbove(delta: real, current: real, percent: real)
    requires current > 0.0 && current * percent >= delta * 100.0
    ensures delta / current * 100.0 <= percent
  {
    var q := delta / current;
    assert q * current == delta;
    if q * 100.0 > percent {
      assert (q * 100.0 - percent) * current > 0.0;
      assert (q * 100.0 - percent) * current == q * current * 100.0 - current * percent;
    }
  }
}
