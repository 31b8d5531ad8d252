/** What one more cost component does to the gate through the report's confidence. */
module ConfidenceLaws {
  import opened Lattices
  import opened Estimation
  import opened EstimationLaws
  import opened Decisions
  import opened Budgets
  import opened Policies
  import opened GateLaws

  /** The facts speak of a report with these components. */
  ghost predicate Report(f: Facts, cs: seq<CostComponent>, hours: int) {
    f.totals == TotalsOf(cs, hours) && IsConfidence(cs, f.confidence)
  }

  /** The second facts are worse in everything the report does not tell. */
  ghost predicate WorseElsewhere(config: seq<Budget>, f: Facts, g: Facts) {
    && f.unknownTypes <= g.unknownTypes
    && (forall c :: c in f.changes ==> exists d :: d in g.changes && NoBetter(c, d))
    && (forall e :: e in f.budgets ==> exists h :: h in g.budgets && HigherUse(config, e, h))
    && g.region == f.region && g.environment == f.environment && g.application == f.application
  }

  ghost predicate HasMaterial(cs: seq<CostComponent>) {
    exists c :: c in cs && IsMaterial(c)
  }

  lemma TotalsOfOneMore(cs: seq<CostComponent>, c: CostComponent, hours: int)
    ensures var t, u := TotalsOf(cs, hours), TotalsOf(cs + [c], hours);
            && u.current == t.current + CurrentOf(c) && u.proposed == t.proposed + ProposedOf(c)
            && u.delta == t.delta + ProposedOf(c) - CurrentOf(c)
            && u.oneTime == t.oneTime + OneTimeOf(c)
            && u.unknownCount == t.unknownCount + (if IsUnknown(c) then 1 else 0)
  {
    hide CurrentOf, ProposedOf, OneTimeOf, FixedOf, UsageOf, Total, UnknownCountOf;
    forall f: Measure
      ensures Total(cs + [c], f) == Total(cs, f) + f(c)
    {
      TotalOfConcat(cs, [c], f);
      TotalOfOne(c, f);
    }
    TallyOfConcat(cs, [c]);
    TallyOfOne(c);
  }

  /** One more component raises the report's confidence exactly when nothing was material and the
      component is the more certain one. */
  lemma ConfidenceRisesExactly(cs: seq<CostComponent>, c: CostComponent, r: Confidence, s: Confidence)
    requires IsConfidence(cs, r) && IsConfidence(cs + [c], s)
    ensures ConfidenceRank(s) <= ConfidenceRank(r) <==> HasMaterial(cs) || ConfidenceRank(c.confidence) <= ConfidenceRank(r)
  {
    hide IsMaterial;
    if cs != [] { ConfidenceOfOneMore(cs, c, r, s); }
  }

  /** One more component makes the facts worse, so that the gate cannot open further, exactly when
      it adds no current cost, no credit and no certainty. */
  lemma OneMoreIsWorseExactly(config: seq<Budget>, f: Facts, g: Facts, cs: seq<CostComponent>, c: CostComponent, hours: int)
    requires Report(f, cs, hours) && Report(g, cs + [c], hours) && WorseElsewhere(config, f, g)
    ensures Worse(config, f, g)
            <==> && CurrentOf(c) == 0.0 && ProposedOf(c) >= 0.0 && OneTimeOf(c) >= 0.0
                 && (HasMaterial(cs) || ConfidenceRank(c.confidence) <= ConfidenceRank(f.confidence))
  {
    hide CurrentOf, ProposedOf, OneTimeOf, TotalsOf, IsConfidence, HasMaterial, NoBetter, HigherUse;
    TotalsOfOneMore(cs, c, hours);
    ConfidenceRisesExactly(cs, c, f.confidence, g.confidence);
  }

  lemma OneMoreKeepsTheGate(policies: seq<Policy>, config: seq<Budget>, f: Facts, g: Facts, cs: seq<CostComponent>, c: CostComponent, hours: int)
    requires Report(f, cs, hours) && Report(g, cs + [c], hours) && WorseElsewhere(config, f, g)
    requires (forall p :: p in policies ==> Rising(p.condition)) && DistinctIds(config)
    requires CurrentOf(c) == 0.0 && ProposedOf(c) >= 0.0 && OneTimeOf(c) >= 0.0
    requires HasMaterial(cs) || ConfidenceRank(c.confidence) <= ConfidenceRank(f.confidence)
    ensures ResultRank(Gate(policies, config, f).result) <= ResultRank(Gate(policies, config, g).result)
  {
    hide Worse, Gate, Rising, Report, WorseElsewhere, DistinctIds;
    OneMoreIsWorseExactly(config, f, g, cs, c, hours);
    GateIsMonotone(policies, config, f, g);
  }

  lemma OnePolicyDecides(p: Policy, f: Facts)
    requires f.budgets == []
    ensures Gate([p], [], f).result == if Fires(p, f) then ToResult(p.action) else Pass
  {
    hide Fires, ReasonsFor, GroupsOf;
    var e := EvaluatePolicy(p, f);
    assert EvaluatePolicies([p], f) == [e] by { assert [p][1..] == []; }
    assert EvaluatePolicies([p], f) + BudgetPolicies([], f.budgets) == [e];
    FiredMembers([e]);
    assert [e][1..] == [] && Results([]) == [] && Highest([]) == Pass;
    if Fires(p, f) {
      assert Results([e]) == [ToResult(p.action)];
      assert [ToResult(p.action)][..0] == [];
    }
  }

  /** Otherwise a costly component that is certain can silence a rule about low confidence, and
      with it the gate: nothing was material, and now something is. */
  lemma CertaintyCanOpenTheGate(p: Policy, ceiling: Confidence, f: Facts, g: Facts, cs: seq<CostComponent>, c: CostComponent, hours: int)
    requires Report(f, cs, hours) && Report(g, cs + [c], hours) && f.budgets == [] && g.budgets == []
    requires p.condition == ConfidenceAtMost(ceiling) && AppliesTo(p.scope, f.environment, f.application)
    requires ConfidenceRank(f.confidence) <= ConfidenceRank(ceiling) < ConfidenceRank(c.confidence)
    requires cs != [] && !HasMaterial(cs) && IsMaterial(c)
    ensures Gate([p], [], f).result == ToResult(p.action) && Gate([p], [], g).result == Pass
  {
    hide Gate, AppliesTo, IsMaterial, TotalsOf, IsConfidence;
    ConfidenceOfOneMore(cs, c, f.confidence, g.confidence);
    OnePolicyDecides(p, f);
    OnePolicyDecides(p, g);
  }
}
