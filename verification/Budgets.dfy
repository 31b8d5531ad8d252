/** Budgets: scoped sums, utilisation, thresholds, and the policy evaluations they turn into. */
module Budgets {
  import opened Templates
  import opened Ordering
  import opened Lattices
  import opened Resources
  import opened Estimation
  import opened EstimationLaws
  import opened Decisions

  datatype BudgetScope = BudgetScope(
    application: Option<string>, environment: Option<string>, team: Option<string>, costCentre: Option<string>)

  /** Every dimension the scope names must be equal; an unattributed resource matches no name. */
  predicate Covers(scope: BudgetScope, context: ResourceContext) {
    && (scope.application.Some? ==> context.application == scope.application)
    && (scope.environment.Some? ==> context.environment == scope.environment)
    && (scope.team.Some? ==> context.team == scope.team)
    && (scope.costCentre.Some? ==> context.costCentre == scope.costCentre)
  }

  datatype Thresholds = Thresholds(warning: Option<real>, approval: Option<real>, blocking: Option<real>)

  datatype Threshold = Threshold(action: PolicyAction, percent: real)

  function AtLevel(action: PolicyAction, percent: Option<real>): seq<Threshold> {
    match percent case None => [] case Some(p) => [Threshold(action, p)]
  }

  /** The thresholds that are set, least severe first. */
  function Present(t: Thresholds): seq<Threshold> {
    AtLevel(WarnAction, t.warning) + AtLevel(RequireApprovalAction, t.approval) + AtLevel(BlockAction, t.blocking)
  }

  /** The validator of thresholds: neighbours do not cross. */
  predicate InOrder(t: Thresholds) {
    forall i :: 0 <= i < |Present(t)| - 1 ==> Present(t)[i].percent <= Present(t)[i + 1].percent
  }

  datatype Budget = Budget(
    id: string, scope: BudgetScope, limit: Option<real>, thresholds: Thresholds,
    maxIncrease: Option<real>, increaseAction: PolicyAction, approverGroup: string, severity: Severity,
    actual: Option<real>, forecast: Option<real>)

  /** What loading a budget guarantees. */
  predicate ValidBudget(b: Budget) {
    && (b.limit.Some? || b.maxIncrease.Some?)
    && (b.limit.None? ==> Present(b.thresholds) == [])
    && (b.limit.Some? ==> b.limit.value >= 0.0)
    && (b.maxIncrease.Some? ==> b.maxIncrease.value >= 0.0)
    && (forall t :: t in Present(b.thresholds) ==> t.percent >= 0.0)
    && InOrder(b.thresholds)
  }

  datatype BudgetEvaluation = BudgetEvaluation(
    id: string, current: real, proposed: real, delta: real, limit: Option<real>, maxIncrease: Option<real>,
    actual: Option<real>, forecast: Option<real>, utilization: Option<real>, headroom: Option<real>,
    crossed: seq<PolicyAction>, unknownCount: int, againstActual: bool)

  // ----- scoped sums -----

  type Contexts = map<ResourceKey, ResourceContext>

  function ContextOf(c: CostComponent, contexts: Contexts, fallback: ResourceContext): ResourceContext {
    if c.resource in contexts then contexts[c.resource] else fallback
  }

  function Scoped(cs: seq<CostComponent>, scope: BudgetScope, contexts: Contexts, fallback: ResourceContext): seq<CostComponent> {
    if cs == [] then []
    else
      (if Covers(scope, ContextOf(cs[0], contexts, fallback)) then [cs[0]] else [])
      + Scoped(cs[1..], scope, contexts, fallback)
  }

  function Identity(v: Option<real>): Option<real> { v }

  lemma KnownSumGrows(values: seq<Option<real>>, v: Option<real>)
    ensures Sum(FilterMap(values + [v], Identity)) == Sum(FilterMap(values, Identity)) + Estimation.Known(v)
  {
    FilterMapOfConcat(values, [v], Identity);
    assert [v][1..] == [];
    SumOfConcat(FilterMap(values, Identity), FilterMap([v], Identity));
  }

  lemma SameFilter(values: seq<Option<real>>)
    ensures FilterMap(values, (v: Option<real>) => v) == FilterMap(values, Identity)
  {
    FilterMapAgrees(values, (v: Option<real>) => v, Identity);
  }

  lemma {:induction false} FilterMapAgrees<T, U>(xs: seq<T>, f: T -> Option<U>, g: T -> Option<U>)
    requires forall x :: x in xs ==> f(x) == g(x)
    ensures FilterMap(xs, f) == FilterMap(xs, g)
  {
    if xs != [] { FilterMapAgrees(xs[1..], f, g); }
  }

  /** Total the components belonging to one scope. */
  method InScope(scope: BudgetScope, cs: seq<CostComponent>, contexts: Contexts, fallback: ResourceContext)
    returns (current: real, proposed: real, delta: real, unknown: int)
    ensures Tally(current, proposed, unknown) == TallyOf(Scoped(cs, scope, contexts, fallback))
    ensures delta == proposed - current
  {
    hide FilterMap, Covers, Scoped, ContextOf, Sum, IsUnknown, Plus, TallyOf, Identity;
    var currents: seq<Option<real>>, proposals: seq<Option<real>> := [], [];
    unknown := 0;
    ghost var done: seq<CostComponent> := [];
    ScopedEnds(cs, scope, contexts, fallback, done);
    EmptySums();
    for i := 0 to |cs|
      invariant Scoped(cs, scope, contexts, fallback) == done + Scoped(cs[i..], scope, contexts, fallback)
      invariant TallyOf(done) == Tally(Sum(FilterMap(currents, Identity)), Sum(FilterMap(proposals, Identity)), unknown)
    {
      var c := cs[i];
      ScopedStep(cs, i, scope, contexts, fallback, done);
      if !Covers(scope, ContextOf(c, contexts, fallback)) {
        continue;
      }
      TallyGrowsInFields(done, c);
      done := done + [c];
      if IsUnknown(c) {
        unknown := unknown + 1;
        continue;
      }
      KnownSumGrows(currents, c.current);
      KnownSumGrows(proposals, c.proposed);
      currents := currents + [c.current];
      proposals := proposals + [c.proposed];
    }
    ScopedEnds(cs, scope, contexts, fallback, done);
    SameFilter(currents);
    SameFilter(proposals);
    current := SumKnown(currents);
    proposed := SumKnown(proposals);
    delta := proposed - current;
  }

  lemma ScopedEnds(cs: seq<CostComponent>, scope: BudgetScope, contexts: Contexts, fallback: ResourceContext, done: seq<CostComponent>)
    ensures Scoped(cs, scope, contexts, fallback) == [] + Scoped(cs[0..], scope, contexts, fallback)
    ensures done + Scoped(cs[|cs|..], scope, contexts, fallback) == done
  {
    assert cs[0..] == cs && cs[|cs|..] == [];
  }

  lemma ScopedStep(cs: seq<CostComponent>, i: nat, scope: BudgetScope, contexts: Contexts, fallback: ResourceContext, done: seq<CostComponent>)
    requires i < |cs| && Scoped(cs, scope, contexts, fallback) == done + Scoped(cs[i..], scope, contexts, fallback)
    ensures Scoped(cs, scope, contexts, fallback)
            == (if Covers(scope, ContextOf(cs[i], contexts, fallback)) then done + [cs[i]] else done) + Scoped(cs[i + 1..], scope, contexts, fallback)
  {
    hide Covers, Scoped, ContextOf;
    ScopedUnfolds(cs, i, scope, contexts, fallback);
    var c, rest := cs[i], Scoped(cs[i + 1..], scope, contexts, fallback);
    assert done + ([c] + rest) == done + [c] + rest;
  }

  lemma ScopedUnfolds(cs: seq<CostComponent>, i: nat, scope: BudgetScope, contexts: Contexts, fallback: ResourceContext)
    requires i < |cs|
    ensures Scoped(cs[i..], scope, contexts, fallback)
            == if Covers(scope, ContextOf(cs[i], contexts, fallback)) then [cs[i]] + Scoped(cs[i + 1..], scope, contexts, fallback)
               else Scoped(cs[i + 1..], scope, contexts, fallback)
  {
    hide Covers, ContextOf;
    assert cs[i..][1..] == cs[i + 1..] && cs[i..][0] == cs[i];
  }

  lemma EmptySums()
    ensures TallyOf([]) == Tally(Sum(FilterMap([], Identity)), Sum(FilterMap([], Identity)), 0)
  {
  }

  lemma TallyGrows(done: seq<CostComponent>, c: CostComponent)
    ensures TallyOf(done + [c]) == Plus(TallyOf(done), One(c))
  {
    hide TallyOf;
    TallyOfConcat(done, [c]);
    TallyOfOne(c);
  }

  lemma TallyGrowsInFields(done: seq<CostComponent>, c: CostComponent)
    ensures var t, u := TallyOf(done), TallyOf(done + [c]);
            u == if IsUnknown(c) then Tally(t.current, t.proposed, t.unknown + 1)
                 else Tally(t.current + Estimation.Known(c.current), t.proposed + Estimation.Known(c.proposed), t.unknown)
  {
    hide TallyOf, IsUnknown;
    TallyGrows(done, c);
  }

  /** What one component adds to a tally. */
  function One(c: CostComponent): Tally {
    if IsUnknown(c) then Tally(0.0, 0.0, 1) else Tally(Estimation.Known(c.current), Estimation.Known(c.proposed), 0)
  }

  // ----- evaluating a budget -----

  predicate Applies(scope: BudgetScope, contexts: Contexts, fallback: ResourceContext) {
    Covers(scope, fallback) || exists key :: key in contexts && Covers(scope, contexts[key])
  }

  function CrossedThresholds(ts: seq<Threshold>, utilization: real): seq<PolicyAction> {
    if ts == [] then []
    else (if utilization > ts[0].percent then [ts[0].action] else []) + CrossedThresholds(ts[1..], utilization)
  }

  function Crossed(t: Thresholds, utilization: Option<real>): seq<PolicyAction> {
    match utilization case None => [] case Some(u) => CrossedThresholds(Present(t), u)
  }

  method CrossedByLoop(t: Thresholds, utilization: Option<real>) returns (crossed: seq<PolicyAction>)
    ensures crossed == Crossed(t, utilization)
  {
    hide CrossedThresholds, PresentFrom, Present;
    crossed := [];
    if utilization.None? {
      return;
    }
    var levels := [(WarnAction, t.warning), (RequireApprovalAction, t.approval), (BlockAction, t.blocking)];
    var u := utilization.value;
    PresentOfThree(t, levels);
    assert levels[0..] == levels;
    for i := 0 to |levels|
      invariant crossed + CrossedThresholds(PresentFrom(levels[i..]), u) == CrossedThresholds(Present(t), u)
    {
      var (action, percent) := levels[i];
      CrossedStep(levels, i, u);
      if percent.Some? && u > percent.value {
        crossed := crossed + [action];
      }
    }
    NothingCrossed(levels, u);
  }

  lemma CrossedStep(levels: seq<(PolicyAction, Option<real>)>, i: nat, u: real)
    requires i < |levels|
    ensures CrossedThresholds(PresentFrom(levels[i..]), u)
            == (if levels[i].1.Some? && u > levels[i].1.value then [levels[i].0] else [])
               + CrossedThresholds(PresentFrom(levels[i + 1..]), u)
  {
    var (action, percent) := levels[i];
    var rest := PresentFrom(levels[i + 1..]);
    assert levels[i..][1..] == levels[i + 1..];
    if percent.Some? {
      assert ([Threshold(action, percent.value)] + rest)[1..] == rest;
    } else {
      assert AtLevel(action, percent) + rest == rest;
    }
  }

  lemma NothingCrossed(levels: seq<(PolicyAction, Option<real>)>, u: real)
    ensures CrossedThresholds(PresentFrom(levels[|levels|..]), u) == []
  {
  }

  ghost function PresentFrom(levels: seq<(PolicyAction, Option<real>)>): seq<Threshold> {
    if levels == [] then [] else AtLevel(levels[0].0, levels[0].1) + PresentFrom(levels[1..])
  }

  lemma PresentOfThree(t: Thresholds, levels: seq<(PolicyAction, Option<real>)>)
    requires levels == [(WarnAction, t.warning), (RequireApprovalAction, t.approval), (BlockAction, t.blocking)]
    ensures PresentFrom(levels) == Present(t)
  {
    assert levels[1..][1..] == [levels[2]] && [levels[2]][1..] == [];
    assert PresentFrom([levels[2]]) == AtLevel(levels[2].0, levels[2].1);
    assert PresentFrom(levels[1..]) == AtLevel(levels[1].0, levels[1].1) + PresentFrom([levels[2]]);
  }

  /** What is measured against the limit: actual spend plus the change where it is known. */
  function Measured(b: Budget, sums: Tally): real {
    match b.actual case None => sums.proposed case Some(a) => a + (sums.proposed - sums.current)
  }

  /** A limit of zero has no utilisation. */
  function Utilization(b: Budget, sums: Tally): Option<real> {
    if b.limit.Some? && b.limit.value > 0.0 then Some(Measured(b, sums) / b.limit.value * 100.0) else None
  }

  function EvaluateBudget(b: Budget, sums: Tally): BudgetEvaluation {
    var utilization := Utilization(b, sums);
    BudgetEvaluation(
      b.id, sums.current, sums.proposed, sums.proposed - sums.current, b.limit, b.maxIncrease, b.actual, b.forecast,
      utilization, if utilization.Some? then Some(b.limit.value - Measured(b, sums)) else None,
      Crossed(b.thresholds, utilization), sums.unknown, utilization.Some? && b.actual.Some?)
  }

  ghost function EvaluateIfApplies(b: Budget, cs: seq<CostComponent>, contexts: Contexts, fallback: ResourceContext): Option<BudgetEvaluation> {
    if Applies(b.scope, contexts, fallback) then Some(EvaluateBudget(b, TallyOf(Scoped(cs, b.scope, contexts, fallback)))) else None
  }

  ghost function EvaluatedBudgets(budgets: seq<Budget>, cs: seq<CostComponent>, contexts: Contexts, fallback: ResourceContext): seq<BudgetEvaluation> {
    FilterMap(budgets, b => EvaluateIfApplies(b, cs, contexts, fallback))
  }

  method EvaluateBudgets(budgets: seq<Budget>, cs: seq<CostComponent>, contexts: Contexts, fallback: ResourceContext)
    returns (evaluations: seq<BudgetEvaluation>)
    ensures evaluations == EvaluatedBudgets(budgets, cs, contexts, fallback)
  {
    hide FilterMap, Covers, Scoped, TallyOf, Crossed, Measured;
    evaluations := [];
    ghost var f := b => EvaluateIfApplies(b, cs, contexts, fallback);
    FilterMapEnds(budgets, f, evaluations);
    for i := 0 to |budgets|
      invariant evaluations + FilterMap(budgets[i..], f) == FilterMap(budgets, f)
    {
      var b := budgets[i];
      FilterMapStep(budgets, i, f, evaluations);
      if !Applies(b.scope, contexts, fallback) {
        continue;
      }
      var current, proposed, delta, unknown := InScope(b.scope, cs, contexts, fallback);
      var utilization: Option<real>, headroom: Option<real>, againstActual := None, None, false;
      if b.limit.Some? && b.limit.value > 0.0 {
        var measured := Measured(b, Tally(current, proposed, unknown));
        againstActual := b.actual.Some?;
        utilization := Some(measured / b.limit.value * 100.0);
        headroom := Some(b.limit.value - measured);
      }
      var crossed := CrossedByLoop(b.thresholds, utilization);
      evaluations := evaluations + [BudgetEvaluation(
        b.id, current, proposed, delta, b.limit, b.maxIncrease, b.actual, b.forecast,
        utilization, headroom, crossed, unknown, againstActual)];
    }
    FilterMapEnds(budgets, f, evaluations);
  }

  // ----- budgets as policies -----

  /** The program's own wording; never blank, since it always names the budget's figures. */
  const FINDING := "budget limit passed"

  function Approver(b: Budget, action: PolicyAction): string {
    if action.RequireApprovalAction? then b.approverGroup else ""
  }

  /** Only the last, most severe, crossed threshold speaks. */
  function ThresholdEvaluation(b: Budget, e: BudgetEvaluation): seq<PolicyEvaluation> {
    var id := "budget:" + b.id + ":threshold";
    if b.limit.None? || e.utilization.None? then []
    else if e.crossed == [] then [PolicyEvaluation(id, false, "", None, MediumSeverity, "")]
    else
      var worst := e.crossed[|e.crossed| - 1];
      [PolicyEvaluation(id, true, FINDING, Some(worst), b.severity, Approver(b, worst))]
  }

  function IncreaseEvaluation(b: Budget, e: BudgetEvaluation): seq<PolicyEvaluation> {
    var id := "budget:" + b.id + ":increase";
    match e.maxIncrease
    case None => []
    case Some(cap) =>
      if e.delta <= cap then [PolicyEvaluation(id, false, "", None, MediumSeverity, "")]
      else [PolicyEvaluation(id, true, FINDING, Some(b.increaseAction), b.severity, Approver(b, b.increaseAction))]
  }

  /** The budget an evaluation came from; a later definition replaces an earlier one. */
  function BudgetById(budgets: seq<Budget>, id: string): (r: Option<Budget>)
    ensures r.Some? ==> r.value in budgets && r.value.id == id
    ensures (exists b :: b in budgets && b.id == id) ==> r.Some?
    decreases |budgets|
  {
    if budgets == [] then None
    else
      var n := |budgets| - 1;
      assert budgets == budgets[..n] + [budgets[n]];
      if budgets[n].id == id then Some(budgets[n]) else BudgetById(budgets[..n], id)
  }

  function BudgetFindings(budgets: seq<Budget>, e: BudgetEvaluation): seq<PolicyEvaluation> {
    match BudgetById(budgets, e.id)
    case None => []
    case Some(b) => ThresholdEvaluation(b, e) + IncreaseEvaluation(b, e)
  }

  function BudgetPolicies(budgets: seq<Budget>, es: seq<BudgetEvaluation>): seq<PolicyEvaluation> {
    if es == [] then [] else BudgetFindings(budgets, es[0]) + BudgetPolicies(budgets, es[1..])
  }

  method IndexById(budgets: seq<Budget>) returns (byId: map<string, Budget>)
    ensures forall id :: id in byId <==> BudgetById(budgets, id).Some?
    ensures forall id :: id in byId ==> BudgetById(budgets, id) == Some(byId[id])
  {
    byId := map[];
    for i := 0 to |budgets|
      invariant forall id :: id in byId <==> BudgetById(budgets[..i], id).Some?
      invariant forall id :: id in byId ==> BudgetById(budgets[..i], id) == Some(byId[id])
    {
      assert budgets[..i + 1][..i] == budgets[..i];
      byId := byId[budgets[i].id := budgets[i]];
    }
    assert budgets[..|budgets|] == budgets;
  }

  method BudgetPolicyEvaluations(budgets: seq<Budget>, es: seq<BudgetEvaluation>) returns (results: seq<PolicyEvaluation>)
    ensures results == BudgetPolicies(budgets, es)
  {
    hide ThresholdEvaluation, IncreaseEvaluation, BudgetById, BudgetPolicies, BudgetFindings;
    var byId := IndexById(budgets);
    results := [];
    assert es[0..] == es;
    for i := 0 to |es|
      invariant results + BudgetPolicies(budgets, es[i..]) == BudgetPolicies(budgets, es)
    {
      var e := es[i];
      BudgetPoliciesStep(results, budgets, es, i);
      FindingsJoin(results, budgets, e);
      if e.id !in byId {
        continue;
      }
      var b := byId[e.id];
      results := results + ThresholdEvaluation(b, e);
      results := results + IncreaseEvaluation(b, e);
    }
    NoMoreFindings(budgets, es);
  }

  lemma BudgetPoliciesStep(results: seq<PolicyEvaluation>, budgets: seq<Budget>, es: seq<BudgetEvaluation>, i: nat)
    requires i < |es|
    ensures results + BudgetPolicies(budgets, es[i..]) == results + BudgetFindings(budgets, es[i]) + BudgetPolicies(budgets, es[i + 1..])
  {
    hide BudgetFindings;
    assert es[i..][1..] == es[i + 1..];
  }

  lemma FindingsJoin(results: seq<PolicyEvaluation>, budgets: seq<Budget>, e: BudgetEvaluation)
    ensures results + BudgetFindings(budgets, e)
            == match BudgetById(budgets, e.id) case None => results case Some(b) => results + ThresholdEvaluation(b, e) + IncreaseEvaluation(b, e)
  {
    hide ThresholdEvaluation, IncreaseEvaluation, BudgetById;
  }

  lemma NoMoreFindings(budgets: seq<Budget>, es: seq<BudgetEvaluation>)
    ensures BudgetPolicies(budgets, es[|es|..]) == []
  {
  }
}
