/** What each budget evaluation and each finding says, told on its own fields. */
module BudgetFields {
  import opened Templates
  import opened Ordering
  import opened Lattices
  import opened Resources
  import opened Estimation
  import opened EstimationLaws
  import opened Decisions
  import opened Budgets
  import opened BudgetLaws

  // ----- evaluations -----

  /** What is held against the limit: actual spend and the change where spend is known, and the
      proposed cost where it is not. */
  function HeldAgainst(e: BudgetEvaluation): real {
    if e.actual.Some? then e.actual.value + e.delta else e.proposed
  }

  /** The figures of an evaluation hang together. */
  ghost predicate AddsUpTo(e: BudgetEvaluation) {
    && e.delta == e.proposed - e.current
    && if e.limit.Some? && e.limit.value > 0.0 then
         && e.headroom.Some? && e.utilization.Some?
         && e.headroom.value + HeldAgainst(e) == e.limit.value
         && e.utilization.value * e.limit.value == 100.0 * (e.limit.value - e.headroom.value)
         && (e.againstActual <==> e.actual.Some?)
       else e.headroom.None? && e.utilization.None? && e.crossed == [] && !e.againstActual
  }

  /** A threshold is crossed when it is set and use lies above it. */
  ghost predicate Passed(percent: Option<real>, e: BudgetEvaluation) {
    percent.Some? && e.utilization.Some? && e.utilization.value > percent.value
  }

  ghost predicate CrossesRightly(e: BudgetEvaluation, t: Thresholds) {
    && (WarnAction in e.crossed <==> Passed(t.warning, e))
    && (RequireApprovalAction in e.crossed <==> Passed(t.approval, e))
    && (BlockAction in e.crossed <==> Passed(t.blocking, e))
  }

  lemma ScaledBack(measured: real, limit: real)
    requires limit > 0.0
    ensures measured / limit * 100.0 * limit == 100.0 * measured
  {
    assert measured / limit * limit == measured;
  }

  lemma EvaluationInFields(b: Budget, sums: Tally)
    ensures var e := EvaluateBudget(b, sums);
            && e.id == b.id && e.limit == b.limit && e.maxIncrease == b.maxIncrease && e.actual == b.actual && e.forecast == b.forecast
            && e.current == sums.current && e.proposed == sums.proposed && e.unknownCount == sums.unknown
            && AddsUpTo(e) && CrossesRightly(e, b.thresholds)
  {
    hide CrossedThresholds, Present;
    var e := EvaluateBudget(b, sums);
    if e.utilization.Some? {
      ScaledBack(Measured(b, sums), b.limit.value);
      CrossedInFields(b.thresholds, e.utilization.value);
    }
  }

  lemma CrossedInFields(t: Thresholds, u: real)
    ensures var crossed := CrossedThresholds(Present(t), u);
            && (WarnAction in crossed <==> t.warning.Some? && u > t.warning.value)
            && (RequireApprovalAction in crossed <==> t.approval.Some? && u > t.approval.value)
            && (BlockAction in crossed <==> t.blocking.Some? && u > t.blocking.value)
  {
    hide CrossedThresholds, Present;
    PresentInFields(t);
    CrossedMembers(Present(t), u, WarnAction);
    CrossedMembers(Present(t), u, RequireApprovalAction);
    CrossedMembers(Present(t), u, BlockAction);
    if t.warning.Some? { assert Threshold(WarnAction, t.warning.value) in Present(t); }
    if t.approval.Some? { assert Threshold(RequireApprovalAction, t.approval.value) in Present(t); }
    if t.blocking.Some? { assert Threshold(BlockAction, t.blocking.value) in Present(t); }
  }

  lemma PresentInFields(t: Thresholds)
    ensures forall x :: x in Present(t) <==>
              || (x.action.WarnAction? && t.warning == Some(x.percent))
              || (x.action.RequireApprovalAction? && t.approval == Some(x.percent))
              || (x.action.BlockAction? && t.blocking == Some(x.percent))
  {
  }

  /** A change that adds nothing is held against the limit at its actual spend alone. */
  lemma IdleChangeIsActual(b: Budget, sums: Tally)
    requires b.actual.Some? && b.limit.Some? && b.limit.value > 0.0 && sums.proposed == sums.current
    ensures EvaluateBudget(b, sums).headroom == Some(b.limit.value - b.actual.value)
  {
    hide Crossed;
  }

  /** Each evaluation is of a budget that concerns the change, and each such budget has one: its
      scope covers where the change is deployed or some resource of it. */
  lemma EvaluationsInFields(budgets: seq<Budget>, cs: seq<CostComponent>, contexts: Contexts, fallback: ResourceContext)
    ensures forall e :: e in EvaluatedBudgets(budgets, cs, contexts, fallback) <==>
              exists b :: b in budgets && e == EvaluateBudget(b, TallyOf(Scoped(cs, b.scope, contexts, fallback)))
                          && (Covers(b.scope, fallback) || exists key :: key in contexts && Covers(b.scope, contexts[key]))
    ensures forall e :: e in EvaluatedBudgets(budgets, cs, contexts, fallback) ==> AddsUpTo(e)
  {
    hide Covers, Scoped, TallyOf, EvaluateBudget, AddsUpTo, CrossesRightly;
    EvaluatedMembers(budgets, cs, contexts, fallback);
    forall e | e in EvaluatedBudgets(budgets, cs, contexts, fallback)
      ensures AddsUpTo(e)
    {
      var b :| b in budgets && EvaluateIfApplies(b, cs, contexts, fallback) == Some(e);
      EvaluationInFields(b, TallyOf(Scoped(cs, b.scope, contexts, fallback)));
    }
  }

  lemma {:induction false} EvaluatedMembers(budgets: seq<Budget>, cs: seq<CostComponent>, contexts: Contexts, fallback: ResourceContext)
    ensures forall e :: e in EvaluatedBudgets(budgets, cs, contexts, fallback) <==>
              exists b :: b in budgets && EvaluateIfApplies(b, cs, contexts, fallback) == Some(e)
  {
    hide EvaluateIfApplies;
    if budgets != [] {
      EvaluatedMembers(budgets[1..], cs, contexts, fallback);
      var f := b => EvaluateIfApplies(b, cs, contexts, fallback);
      assert EvaluatedBudgets(budgets, cs, contexts, fallback) == FilterMap(budgets, f);
      assert budgets == [budgets[0]] + budgets[1..];
    }
  }

  /** A component counts in a scope through the context of its own resource, or through the
      deployment's where the resource has none. */
  lemma {:induction false} ScopedMembers(cs: seq<CostComponent>, scope: BudgetScope, contexts: Contexts, fallback: ResourceContext)
    ensures forall c :: c in Scoped(cs, scope, contexts, fallback) <==>
              c in cs && ((c.resource in contexts && Covers(scope, contexts[c.resource])) || (c.resource !in contexts && Covers(scope, fallback)))
  {
    hide Covers;
    if cs != [] {
      ScopedMembers(cs[1..], scope, contexts, fallback);
      assert cs == [cs[0]] + cs[1..];
    }
  }

  /** A scope covers a context when each dimension it names is the context's. */
  lemma CoversInFields(scope: BudgetScope, context: ResourceContext)
    ensures Covers(scope, context) <==>
              && (scope.application.None? || scope.application == context.application)
              && (scope.environment.None? || scope.environment == context.environment)
              && (scope.team.None? || scope.team == context.team)
              && (scope.costCentre.None? || scope.costCentre == context.costCentre)
  {
  }

  // ----- findings -----

  /** A finding of a budget: what it asks for, how severely, and of whom. */
  ghost predicate Asks(f: PolicyEvaluation, b: Budget, action: PolicyAction) {
    && f.matched && f.action == Some(action) && f.severity == b.severity && !IsBlank(f.reason)
    && f.approverGroup == (if action.RequireApprovalAction? then b.approverGroup else "")
  }

  /** Crossed thresholds make one finding, and the most severe of them decides what it asks. */
  lemma ThresholdFindingInFields(b: Budget, sums: Tally)
    ensures var e := EvaluateBudget(b, sums); var fs := ThresholdEvaluation(b, e);
            && (fs == [] <==> e.utilization.None?)
            && (e.utilization.Some? ==>
                  && |fs| == 1 && fs[0].id == "budget:" + b.id + ":threshold"
                  && if Passed(b.thresholds.blocking, e) then Asks(fs[0], b, BlockAction)
                     else if Passed(b.thresholds.approval, e) then Asks(fs[0], b, RequireApprovalAction)
                     else if Passed(b.thresholds.warning, e) then Asks(fs[0], b, WarnAction)
                     else !fs[0].matched && fs[0].action.None?)
  {
    hide Measured, IsBlank, CrossedThresholds, Present;
    var e := EvaluateBudget(b, sums);
    EvaluationInFields(b, sums);
    FindingIsNotBlank();
    if e.utilization.Some? { WorstIsLast(b.thresholds, e.utilization.value); }
  }

  lemma WorstIsLast(t: Thresholds, u: real)
    ensures var crossed := CrossedThresholds(Present(t), u);
            crossed != [] ==>
              crossed[|crossed| - 1] == if BlockAction in crossed then BlockAction
                                        else if RequireApprovalAction in crossed then RequireApprovalAction else WarnAction
  {
    hide CrossedThresholds, Present;
    var crossed := CrossedThresholds(Present(t), u);
    if crossed != [] {
      LastCrossedIsWorst(t, u);
      assert crossed[|crossed| - 1] in crossed;
      ActionsRank();
    }
  }

  lemma ActionsRank()
    ensures ResultRank(ToResult(WarnAction)) < ResultRank(ToResult(RequireApprovalAction)) < ResultRank(ToResult(BlockAction))
  {
  }

  /** A cap on the increase makes one finding, which asks for the budget's own action exactly when
      the change adds more than the cap. */
  lemma IncreaseFindingInFields(b: Budget, sums: Tally)
    ensures var e := EvaluateBudget(b, sums); var fs := IncreaseEvaluation(b, e);
            && (fs == [] <==> b.maxIncrease.None?)
            && (b.maxIncrease.Some? ==>
                  && |fs| == 1 && fs[0].id == "budget:" + b.id + ":increase"
                  && if sums.proposed - sums.current > b.maxIncrease.value then Asks(fs[0], b, b.increaseAction)
                     else !fs[0].matched && fs[0].action.None?)
  {
    hide Measured, Crossed, IsBlank;
    FindingIsNotBlank();
  }

  /** A budget's findings come with the budget's own identifier, in the order of evaluation. */
  lemma {:induction false} FindingsOfEach(budgets: seq<Budget>, es: seq<BudgetEvaluation>, k: nat)
    requires k < |es|
    ensures exists before, after :: BudgetPolicies(budgets, es) == before + BudgetFindings(budgets, es[k]) + after
    decreases k
  {
    hide BudgetFindings;
    if k == 0 {
      assert BudgetPolicies(budgets, es) == [] + BudgetFindings(budgets, es[0]) + BudgetPolicies(budgets, es[1..]);
    } else {
      FindingsOfEach(budgets, es[1..], k - 1);
      var before, after :| BudgetPolicies(budgets, es[1..]) == before + BudgetFindings(budgets, es[1..][k - 1]) + after;
      assert BudgetPolicies(budgets, es) == (BudgetFindings(budgets, es[0]) + before) + BudgetFindings(budgets, es[k]) + after;
    }
  }
}
