/** Budget sums are conserved, and more spending is never judged more mildly. */
module BudgetLaws {
  import opened Templates
  import opened Ordering
  import opened Lattices
  import opened Resources
  import opened Estimation
  import opened EstimationLaws
  import opened Decisions
  import opened Budgets

  // ----- conservation -----

  const EVERYTHING := BudgetScope(None, None, None, None)

  lemma {:induction false} EmptyScopeKeepsAll(cs: seq<CostComponent>, contexts: Contexts, fallback: ResourceContext)
    ensures Scoped(cs, EVERYTHING, contexts, fallback) == cs
  {
    if cs != [] {
      EmptyScopeKeepsAll(cs[1..], contexts, fallback);
      assert cs == [cs[0]] + cs[1..];
    }
  }

  /** A budget over everything measures exactly what the report totals. */
  lemma EmptyScopeIsTheReport(b: Budget, report: CostReport, contexts: Contexts, fallback: ResourceContext)
    requires b.scope == EVERYTHING && report.totals == TotalsOf(report.components, report.totals.monthlyHours)
    ensures EvaluateIfApplies(b, report.components, contexts, fallback).Some?
    ensures var e := EvaluateIfApplies(b, report.components, contexts, fallback).value;
            && e.current == report.totals.current && e.proposed == report.totals.proposed
            && e.delta == report.totals.delta && e.unknownCount == report.totals.unknownCount
  {
    hide Total, UnknownCountOf, Crossed, Utilization;
    EmptyScopeKeepsAll(report.components, contexts, fallback);
  }

  datatype Dimension = ByApplication | ByEnvironment | ByTeam | ByCostCentre

  function ValueIn(d: Dimension, context: ResourceContext): Option<string> {
    match d
    case ByApplication => context.application
    case ByEnvironment => context.environment
    case ByTeam => context.team
    case ByCostCentre => context.costCentre
  }

  /** The scope that names one value of one dimension. */
  function Only(d: Dimension, value: string): BudgetScope {
    match d
    case ByApplication => EVERYTHING.(application := Some(value))
    case ByEnvironment => EVERYTHING.(environment := Some(value))
    case ByTeam => EVERYTHING.(team := Some(value))
    case ByCostCentre => EVERYTHING.(costCentre := Some(value))
  }

  lemma OnlyCovers(d: Dimension, value: string, context: ResourceContext)
    ensures Covers(Only(d, value), context) <==> ValueIn(d, context) == Some(value)
  {
  }

  function Unattributed(cs: seq<CostComponent>, d: Dimension, contexts: Contexts, fallback: ResourceContext): seq<CostComponent> {
    if cs == [] then []
    else
      (if ValueIn(d, ContextOf(cs[0], contexts, fallback)).None? then [cs[0]] else [])
      + Unattributed(cs[1..], d, contexts, fallback)
  }

  /** What budgets for each of several values measure together. */
  function SumOver(values: seq<string>, d: Dimension, cs: seq<CostComponent>, contexts: Contexts, fallback: ResourceContext): Tally {
    if values == [] then Tally(0.0, 0.0, 0)
    else Plus(TallyOf(Scoped(cs, Only(d, values[0]), contexts, fallback)), SumOver(values[1..], d, cs, contexts, fallback))
  }

  lemma TallyOfOneMore(c: CostComponent, cs: seq<CostComponent>)
    ensures TallyOf([c] + cs) == Plus(One(c), TallyOf(cs))
  {
    hide TallyOf;
    TallyOfConcat([c], cs);
    TallyOfOne(c);
  }

  /** One more component counts once where its value is listed, and nowhere else. */
  lemma {:induction false} SumOverGrows(values: seq<string>, d: Dimension, c: CostComponent, cs: seq<CostComponent>, contexts: Contexts, fallback: ResourceContext)
    requires Distinct(values)
    ensures var v, more, less := ValueIn(d, ContextOf(c, contexts, fallback)),
                                 SumOver(values, d, [c] + cs, contexts, fallback), SumOver(values, d, cs, contexts, fallback);
            more == if v.Some? && v.value in values then Plus(One(c), less) else less
    decreases |values|
  {
    hide TallyOf, Covers, One, Only;
    if values != [] {
      var first, rest := values[0], values[1..];
      RestIsDistinct(values);
      SumOverGrows(rest, d, c, cs, contexts, fallback);
      OnlyCovers(d, first, ContextOf(c, contexts, fallback));
      assert ([c] + cs)[1..] == cs && ([c] + cs)[0] == c;
      var mine := Scoped(cs, Only(d, first), contexts, fallback);
      TallyOfOneMore(c, mine);
      assert Scoped([c] + cs, Only(d, first), contexts, fallback)
          == (if Covers(Only(d, first), ContextOf(c, contexts, fallback)) then [c] + mine else mine);
    }
  }

  lemma RestIsDistinct(values: seq<string>)
    requires Distinct(values) && values != []
    ensures Distinct(values[1..]) && values[0] !in values[1..]
  {
    var rest := values[1..];
    assert forall i :: 0 <= i < |rest| ==> rest[i] == values[i + 1];
  }

  lemma {:induction false} NothingToSum(values: seq<string>, d: Dimension, contexts: Contexts, fallback: ResourceContext)
    ensures SumOver(values, d, [], contexts, fallback) == Tally(0.0, 0.0, 0)
    decreases |values|
  {
    hide TallyOf, Covers, Only;
    NoTally();
    if values != [] {
      NothingToSum(values[1..], d, contexts, fallback);
      assert Scoped([], Only(d, values[0]), contexts, fallback) == [];
    }
  }

  /** The budgets for every value of one dimension, and the unattributed remainder, add up to the
      whole: nothing is lost and nothing is counted twice. */
  lemma {:induction false} ScopesPartition(cs: seq<CostComponent>, values: seq<string>, d: Dimension, contexts: Contexts, fallback: ResourceContext)
    requires Distinct(values)
    requires forall c :: c in cs && ValueIn(d, ContextOf(c, contexts, fallback)).Some? ==> ValueIn(d, ContextOf(c, contexts, fallback)).value in values
    ensures Plus(SumOver(values, d, cs, contexts, fallback), TallyOf(Unattributed(cs, d, contexts, fallback))) == TallyOf(cs)
    decreases |cs|
  {
    hide TallyOf, SumOver, One, Distinct;
    if cs == [] {
      NothingToSum(values, d, contexts, fallback);
      NoTally();
    } else {
      var c, rest := cs[0], cs[1..];
      assert cs == [c] + rest && c in cs;
      ScopesPartition(rest, values, d, contexts, fallback);
      SumOverGrows(values, d, c, rest, contexts, fallback);
      TallyOfOneMore(c, rest);
      TallyOfOneMore(c, Unattributed(rest, d, contexts, fallback));
      var v, left := ValueIn(d, ContextOf(c, contexts, fallback)), Unattributed(rest, d, contexts, fallback);
      assert Unattributed(cs, d, contexts, fallback) == if v.None? then [c] + left else left;
    }
  }

  // ----- thresholds -----

  function Actions(ts: seq<Threshold>): seq<PolicyAction> {
    seq(|ts|, i requires 0 <= i < |ts| => ts[i].action)
  }

  lemma {:induction false} CrossedFrom(ts: seq<Threshold>, u: real)
    requires forall i :: 0 <= i < |ts| - 1 ==> ts[i].percent <= ts[i + 1].percent
    ensures CrossedThresholds(ts, u) <= Actions(ts)
    ensures ts != [] && u <= ts[0].percent ==> CrossedThresholds(ts, u) == []
    decreases |ts|
  {
    if ts != [] {
      var rest := ts[1..];
      assert forall i :: 0 <= i < |rest| ==> rest[i] == ts[i + 1];
      CrossedFrom(rest, u);
      assert Actions(ts) == [ts[0].action] + Actions(rest);
    }
  }

  lemma {:induction false} CrossedMembers(ts: seq<Threshold>, u: real, a: PolicyAction)
    ensures a in CrossedThresholds(ts, u) <==> exists t :: t in ts && t.action == a && u > t.percent
    decreases |ts|
  {
    if ts != [] {
      CrossedMembers(ts[1..], u, a);
      assert ts == [ts[0]] + ts[1..];
    }
  }

  lemma PresentMembers(t: Thresholds, a: PolicyAction)
    ensures |Present(t)| <= 3
    ensures forall i, j :: 0 <= i < j < |Present(t)| ==> ResultRank(ToResult(Present(t)[i].action)) < ResultRank(ToResult(Present(t)[j].action))
  {
  }

  /** The order that loading insists on is exactly what makes the crossed thresholds, at every
      utilisation, the first few of those configured. */
  lemma OrderMeansPrefix(t: Thresholds)
    ensures InOrder(t) <==> forall u :: CrossedThresholds(Present(t), u) <= Actions(Present(t))
  {
    hide CrossedThresholds;
    var ts := Present(t);
    if InOrder(t) {
      forall u ensures CrossedThresholds(ts, u) <= Actions(ts) { CrossedFrom(ts, u); }
    } else {
      var i :| 0 <= i < |ts| - 1 && ts[i].percent > ts[i + 1].percent;
      NotAPrefix(t, i);
    }
  }

  lemma NotAPrefix(t: Thresholds, i: nat)
    requires i < |Present(t)| - 1 && Present(t)[i].percent > Present(t)[i + 1].percent
    ensures !(CrossedThresholds(Present(t), Present(t)[i].percent) <= Actions(Present(t)))
  {
    hide CrossedThresholds, Present;
    var ts, u := Present(t), Present(t)[i].percent;
    var crossed := CrossedThresholds(ts, u);
    PresentMembers(t, ts[i].action);
    CrossedMembers(ts, u, ts[i + 1].action);
    CrossedMembers(ts, u, ts[i].action);
    assert ts[i + 1] in ts;
    assert ts[i + 1].action in crossed;
    assert ts[i].action !in crossed by {
      forall s | s in ts && s.action == ts[i].action ensures s == ts[i] {
        var j :| 0 <= j < |ts| && ts[j] == s;
      }
    }
    if crossed <= Actions(ts) { PrefixHoldsEarlier(crossed, ts, i); }
  }

  lemma PrefixHoldsEarlier(crossed: seq<PolicyAction>, ts: seq<Threshold>, i: nat)
    requires crossed <= Actions(ts) && i < |ts| - 1 && ts[i + 1].action in crossed
    requires forall j, k :: 0 <= j < k < |ts| ==> ts[j].action != ts[k].action
    ensures ts[i].action in crossed
  {
    var j :| 0 <= j < |crossed| && crossed[j] == ts[i + 1].action;
    assert Actions(ts)[j] == ts[i + 1].action;
    assert crossed[i] == Actions(ts)[i];
  }

  /** The last crossed threshold is the most severe of them. */
  lemma LastCrossedIsWorst(t: Thresholds, u: real)
    requires CrossedThresholds(Present(t), u) != []
    ensures var crossed := CrossedThresholds(Present(t), u);
            forall a :: a in crossed ==> ResultRank(ToResult(a)) <= ResultRank(ToResult(crossed[|crossed| - 1]))
  {
    hide Present, CrossedThresholds;
    PresentMembers(t, WarnAction);
    LastOfAscending(Present(t), u);
  }

  lemma {:induction false} LastOfAscending(ts: seq<Threshold>, u: real)
    requires forall i, j :: 0 <= i < j < |ts| ==> ResultRank(ToResult(ts[i].action)) < ResultRank(ToResult(ts[j].action))
    requires CrossedThresholds(ts, u) != []
    ensures var crossed := CrossedThresholds(ts, u);
            forall a :: a in crossed ==> ResultRank(ToResult(a)) <= ResultRank(ToResult(crossed[|crossed| - 1]))
    decreases |ts|
  {
    var rest := ts[1..];
    assert forall i :: 0 <= i < |rest| ==> rest[i] == ts[i + 1];
    var more := CrossedThresholds(rest, u);
    if more != [] {
      LastOfAscending(rest, u);
      CrossedMembers(rest, u, more[|more| - 1]);
      var t :| t in rest && t.action == more[|more| - 1];
      var k :| 0 <= k < |rest| && rest[k] == t;
      assert ResultRank(ToResult(ts[0].action)) < ResultRank(ToResult(ts[k + 1].action));
    }
  }

  /** Higher utilisation crosses at least as much, and its last crossed threshold is no milder. */
  lemma MoreUseIsNoMilder(t: Thresholds, u: real, v: real)
    requires u <= v && CrossedThresholds(Present(t), u) != []
    ensures var less, more := CrossedThresholds(Present(t), u), CrossedThresholds(Present(t), v);
            && more != []
            && (forall a :: a in less ==> a in more)
            && ResultRank(ToResult(less[|less| - 1])) <= ResultRank(ToResult(more[|more| - 1]))
  {
    hide CrossedThresholds, Present;
    var less, more := CrossedThresholds(Present(t), u), CrossedThresholds(Present(t), v);
    forall a | a in less ensures a in more {
      CrossedMembers(Present(t), u, a);
      CrossedMembers(Present(t), v, a);
    }
    assert less[|less| - 1] in more;
    LastCrossedIsWorst(t, v);
  }

  // ----- one budget's findings -----

  /** The same budget seen under two sets of sums, the second using at least as much of it. */
  ghost predicate UsesMore(b: Budget, x: Tally, y: Tally) {
    Measured(b, x) <= Measured(b, y) && x.proposed - x.current <= y.proposed - y.current
  }

  lemma ScaledMore(m: real, n: real, limit: real)
    requires m <= n && limit > 0.0
    ensures m / limit * 100.0 <= n / limit * 100.0
  {
    assert (n - m) / limit >= 0.0;
    assert n / limit - m / limit == (n - m) / limit;
  }

  /** Using more of a budget never turns a finding into a milder one. */
  lemma MoreUseKeepsFindings(b: Budget, x: Tally, y: Tally)
    requires UsesMore(b, x, y)
    ensures var e, f := EvaluateBudget(b, x), EvaluateBudget(b, y);
            && Covered(ThresholdEvaluation(b, e), ThresholdEvaluation(b, f))
            && Covered(IncreaseEvaluation(b, e), IncreaseEvaluation(b, f))
  {
    hide CrossedThresholds, Present, IsBlank;
    var e, f := EvaluateBudget(b, x), EvaluateBudget(b, y);
    if e.utilization.Some? {
      ScaledMore(Measured(b, x), Measured(b, y), b.limit.value);
      if e.crossed != [] {
        MoreUseIsNoMilder(b.thresholds, e.utilization.value, f.utilization.value);
        FirstSpeaks(ThresholdEvaluation(b, e), ThresholdEvaluation(b, f));
      }
    }
    if b.maxIncrease.Some? && e.delta > b.maxIncrease.value {
      FirstSpeaks(IncreaseEvaluation(b, e), IncreaseEvaluation(b, f));
    }
  }

  lemma FirstSpeaks(xs: seq<PolicyEvaluation>, ys: seq<PolicyEvaluation>)
    requires |xs| == 1 && |ys| == 1 && Fired(xs[0]) && Fired(ys[0])
    requires ResultRank(ToResult(xs[0].action.value)) <= ResultRank(ToResult(ys[0].action.value))
    ensures Covered(xs, ys)
  {
    assert ys[0] in ys;
  }

  /** Past the limit is the same as without headroom, and the two figures agree. */
  lemma OverTheLimit(b: Budget, sums: Tally)
    requires b.limit.Some? && b.limit.value > 0.0
    ensures var e := EvaluateBudget(b, sums);
            && e.utilization.Some? && e.headroom.Some?
            && (e.utilization.value > 100.0 <==> e.headroom.value < 0.0)
            && e.headroom.value + Measured(b, sums) == b.limit.value
  {
    hide Crossed;
    var m, limit := Measured(b, sums), b.limit.value;
    if m > limit {
      assert (m - limit) / limit > 0.0;
    } else {
      assert (limit - m) / limit >= 0.0;
    }
    assert limit / limit == 1.0;
    assert (m - limit) / limit == m / limit - limit / limit && (limit - m) / limit == limit / limit - m / limit;
  }

  /** A limit of zero is never passed: whatever the change costs, no threshold speaks. */
  lemma ZeroLimitIsSilent(b: Budget, sums: Tally)
    requires b.limit == Some(0.0)
    ensures ThresholdEvaluation(b, EvaluateBudget(b, sums)) == []
  {
  }

  lemma FindingIsNotBlank()
    ensures !IsBlank(FINDING)
  {
    assert !IsSpace(FINDING[0]);
  }

  /** A budget's findings pass the evaluation's own check unless one of them asks for approval
      and the budget names an empty approver group. */
  lemma FindingsAreValidExactly(b: Budget, sums: Tally)
    ensures var e := EvaluateBudget(b, sums);
            (forall f :: f in ThresholdEvaluation(b, e) + IncreaseEvaluation(b, e) ==> ValidEvaluation(f))
            <==> (b.approverGroup != ""
                  || (&& !(b.limit.Some? && e.crossed != [] && e.crossed[|e.crossed| - 1].RequireApprovalAction?)
                      && !(b.maxIncrease.Some? && e.delta > b.maxIncrease.value && b.increaseAction.RequireApprovalAction?)))
  {
    hide IsBlank, CrossedThresholds, Present, Measured;
    FindingIsNotBlank();
    var e := EvaluateBudget(b, sums);
    var ts, gs := ThresholdEvaluation(b, e), IncreaseEvaluation(b, e);
    assert forall f :: f in ts + gs <==> f in ts || f in gs;
    assert ts != [] ==> ts[0] in ts;
    assert gs != [] ==> gs[0] in gs;
  }

  // ----- loaded budgets -----

  /** What loading a budgets file guarantees: each budget is valid and no identifier repeats. */
  ghost predicate LoadedBudgets(budgets: seq<Budget>) {
    && (forall b :: b in budgets ==> ValidBudget(b))
    && forall i, j :: 0 <= i < |budgets| && 0 <= j < |budgets| && budgets[i].id == budgets[j].id ==> i == j
  }

  /** The validator of an evaluation: it measures against something. */
  predicate ValidBudgetEvaluation(e: BudgetEvaluation) {
    e.limit.Some? || e.maxIncrease.Some?
  }

  lemma {:induction false} ByIdIsItself(budgets: seq<Budget>, b: Budget)
    requires b in budgets && forall i, j :: 0 <= i < |budgets| && 0 <= j < |budgets| && budgets[i].id == budgets[j].id ==> i == j
    ensures BudgetById(budgets, b.id) == Some(b)
  {
    var found := BudgetById(budgets, b.id);
    var i :| 0 <= i < |budgets| && budgets[i] == b;
    var j :| 0 <= j < |budgets| && budgets[j] == found.value;
  }

  lemma {:induction false} EvaluatedFrom(budgets: seq<Budget>, cs: seq<CostComponent>, contexts: Contexts, fallback: ResourceContext, e: BudgetEvaluation)
    requires e in EvaluatedBudgets(budgets, cs, contexts, fallback)
    ensures exists b :: b in budgets && EvaluateIfApplies(b, cs, contexts, fallback) == Some(e)
  {
    hide EvaluateIfApplies;
    if budgets != [] {
      var f := b => EvaluateIfApplies(b, cs, contexts, fallback);
      if f(budgets[0]) != Some(e) {
        assert e in FilterMap(budgets[1..], f);
        EvaluatedFrom(budgets[1..], cs, contexts, fallback, e);
      }
    }
  }

  /** A valid budget measures up: its evaluation passes the validator, the thresholds it crosses
      are the first few of those configured, it has no utilisation only without a positive limit,
      and a scope that costs nothing or a change that adds nothing has no finding. */
  lemma ValidBudgetMeasuresUp(b: Budget, sums: Tally)
    requires ValidBudget(b)
    ensures var e := EvaluateBudget(b, sums);
            && ValidBudgetEvaluation(e)
            && e.crossed <= Actions(Present(b.thresholds))
            && (e.utilization.None? <==> b.limit.None? || b.limit == Some(0.0))
            && (Measured(b, sums) <= 0.0 ==> e.crossed == [])
            && (sums.proposed <= sums.current ==> forall f :: f in IncreaseEvaluation(b, e) ==> !f.matched)
  {
    hide CrossedThresholds, Present, Measured;
    OrderMeansPrefix(b.thresholds);
    var e := EvaluateBudget(b, sums);
    if e.utilization.Some? {
      assert CrossedThresholds(Present(b.thresholds), e.utilization.value) <= Actions(Present(b.thresholds));
    }
    if Measured(b, sums) <= 0.0 && e.utilization.Some? {
      ScaledMore(Measured(b, sums), 0.0, b.limit.value);
      if e.crossed != [] {
        CrossedMembers(Present(b.thresholds), e.utilization.value, e.crossed[0]);
      }
    }
  }

  /** Every evaluation of a loaded file is judged by the very budget it measured. */
  lemma LoadedBudgetsMeasureUp(budgets: seq<Budget>, cs: seq<CostComponent>, contexts: Contexts, fallback: ResourceContext, e: BudgetEvaluation)
    requires LoadedBudgets(budgets) && e in EvaluatedBudgets(budgets, cs, contexts, fallback)
    ensures var b := BudgetById(budgets, e.id);
            && b.Some? && Applies(b.value.scope, contexts, fallback)
            && e == EvaluateBudget(b.value, TallyOf(Scoped(cs, b.value.scope, contexts, fallback)))
            && ValidBudgetEvaluation(e)
            && e.crossed <= Actions(Present(b.value.thresholds))
            && BudgetFindings(budgets, e) == ThresholdEvaluation(b.value, e) + IncreaseEvaluation(b.value, e)
  {
    hide ThresholdEvaluation, IncreaseEvaluation, TallyOf, Scoped, Covers, Present, Measured;
    EvaluatedFrom(budgets, cs, contexts, fallback, e);
    var b :| b in budgets && EvaluateIfApplies(b, cs, contexts, fallback) == Some(e);
    ByIdIsItself(budgets, b);
    ValidBudgetMeasuresUp(b, TallyOf(Scoped(cs, b.scope, contexts, fallback)));
  }
}
