/** Policies: a closed grammar of conditions over the facts of a change. */
module Policies {
  import opened Templates
  import opened Lattices
  import opened Resources
  import opened Diff
  import opened Estimation
  import opened Decisions
  import opened Budgets

  datatype Condition =
    | AllOf(conditions: seq<Condition>)
    | AnyOf(conditions: seq<Condition>)
    | Negate(inner: Condition)
    | DeltaGreaterThan(limit: real)
    | DeltaPercentGreaterThan(percent: real)
    | OneTimeGreaterThan(limit: real)
    | TypesChanged(operation: Operation, types: seq<string>)
    | UnknownTypes(types: seq<string>)
    | UnknownCountGreaterThan(count: int)
    | ConfidenceAtMost(ceiling: Confidence)
    | UtilizationGreaterThan(percent: real)
    | BudgetIncreaseExceeds(limit: real)
    | TagsMissing(required: seq<string>)
    | RegionNotIn(regions: seq<string>)

  /** What loading a condition guarantees: groups are not empty, and only additions, removals and
      replacements can be watched for. */
  ghost predicate ValidCondition(c: Condition) {
    match c
    case AllOf(cs) => cs != [] && forall i :: 0 <= i < |cs| ==> ValidCondition(cs[i])
    case AnyOf(cs) => cs != [] && forall i :: 0 <= i < |cs| ==> ValidCondition(cs[i])
    case Negate(inner) => ValidCondition(inner)
    case TypesChanged(operation, _) => operation.Add? || operation.Remove? || operation.Replace?
    case _ => true
  }

  // ----- the report's confidence -----

  function Magnitude(x: real): real {
    if x < 0.0 then -x else x
  }

  /** A dollar or more, or an amount nobody knows. */
  predicate IsMaterial(c: CostComponent) {
    c.delta.None? || Magnitude(c.delta.value) >= 1.0
  }

  /** The confidence a report earns: the worst of what matters, or the best of what does not. */
  ghost predicate IsConfidence(cs: seq<CostComponent>, r: Confidence) {
    if cs == [] then r.High?
    else if exists c :: c in cs && IsMaterial(c) then
      && (exists c :: c in cs && IsMaterial(c) && c.confidence == r)
      && (forall c :: c in cs && IsMaterial(c) ==> ConfidenceRank(r) <= ConfidenceRank(c.confidence))
    else
      && (exists c :: c in cs && c.confidence == r)
      && (forall c :: c in cs ==> ConfidenceRank(c.confidence) <= ConfidenceRank(r))
  }

  method ReportConfidence(cs: seq<CostComponent>) returns (r: Confidence)
    ensures IsConfidence(cs, r)
  {
    if cs == [] {
      return High;
    }
    var material: seq<Confidence> := [];
    for i := 0 to |cs|
      invariant forall x :: x in material <==> exists j :: 0 <= j < i && IsMaterial(cs[j]) && cs[j].confidence == x
    {
      if cs[i].delta.None? || Magnitude(cs[i].delta.value) >= 1.0 {
        material := material + [cs[i].confidence];
      }
    }
    if material == [] {
      r := cs[0].confidence;
      for i := 1 to |cs|
        invariant exists j :: 0 <= j < i && cs[j].confidence == r
        invariant forall j :: 0 <= j < i ==> ConfidenceRank(cs[j].confidence) <= ConfidenceRank(r)
      {
        if ConfidenceRank(cs[i].confidence) > ConfidenceRank(r) {
          r := cs[i].confidence;
        }
      }
      assert forall j :: 0 <= j < |cs| && IsMaterial(cs[j]) ==> cs[j].confidence in material;
    } else {
      r := material[0];
      for i := 1 to |material|
        invariant r in material
        invariant forall j :: 0 <= j < i ==> ConfidenceRank(r) <= ConfidenceRank(material[j])
      {
        if ConfidenceRank(material[i]) < ConfidenceRank(r) {
          r := material[i];
        }
      }
      forall j | 0 <= j < |cs| && IsMaterial(cs[j]) ensures ConfidenceRank(r) <= ConfidenceRank(cs[j].confidence) {
        assert cs[j].confidence in material;
      }
    }
  }

  lemma ConfidenceIsUnique(cs: seq<CostComponent>, r: Confidence, s: Confidence)
    requires IsConfidence(cs, r) && IsConfidence(cs, s)
    ensures r == s
  {
  }

  /** What one more component does: a material one replaces what the immaterial ones said and
      otherwise only lowers; an immaterial one only raises, and only among its like. */
  lemma ConfidenceOfOneMore(cs: seq<CostComponent>, c: CostComponent, r: Confidence, s: Confidence)
    requires cs != [] && IsConfidence(cs, r) && IsConfidence(cs + [c], s)
    ensures var material := exists x :: x in cs && IsMaterial(x);
            s == if material then (if IsMaterial(c) then Weaker(r, c.confidence) else r)
                 else if IsMaterial(c) then c.confidence
                 else if ConfidenceRank(r) < ConfidenceRank(c.confidence) then c.confidence else r
  {
    hide IsMaterial;
    var all := cs + [c];
    assert forall x :: x in all <==> x in cs || x == c;
    if exists x :: x in cs && IsMaterial(x) {
      ConfidenceIsUnique(all, s, if IsMaterial(c) then Weaker(r, c.confidence) else r);
    } else if !IsMaterial(c) {
      ConfidenceIsUnique(all, s, if ConfidenceRank(r) < ConfidenceRank(c.confidence) then c.confidence else r);
    }
  }

  /** The order of the components, and listing one twice, make no difference. */
  lemma ConfidenceIgnoresOrder(cs: seq<CostComponent>, ds: seq<CostComponent>, r: Confidence, s: Confidence)
    requires (forall c :: c in cs <==> c in ds) && IsConfidence(cs, r) && IsConfidence(ds, s)
    ensures r == s
  {
    assert cs == [] <==> ds == [] by {
      if cs != [] { assert cs[0] in ds; }
      if ds != [] { assert ds[0] in cs; }
    }
    assert IsConfidence(ds, r);
    ConfidenceIsUnique(ds, r, s);
  }

  /** One component of unknown cost leaves the whole report without confidence. */
  lemma OneUnknownSinksConfidence(cs: seq<CostComponent>, r: Confidence)
    requires (forall c :: c in cs ==> ValidComponent(c)) && IsConfidence(cs, r)
    ensures (exists c :: c in cs && IsUnknown(c)) <==> cs != [] && r.UnknownConfidence?
  {
    if c :| c in cs && IsUnknown(c) {
      assert IsMaterial(c);
    }
  }

  // ----- facts -----

  datatype Facts = Facts(
    totals: CostTotals, confidence: Confidence, unknownTypes: set<string>, changes: seq<ResourceChange>,
    budgets: seq<BudgetEvaluation>, region: string, environment: Option<string>, application: Option<string>)

  function LowerChar(c: char): char {
    if 'A' <= c <= 'Z' then (c as int + 32) as char else c
  }

  function Lower(s: string): string {
    seq(|s|, i requires 0 <= i < |s| => LowerChar(s[i]))
  }

  function LowerAll(texts: set<string>): set<string> {
    set t | t in texts :: Lower(t)
  }

  predicate LacksTag(c: ResourceChange, required: seq<string>) {
    c.operation.Add? && c.after.Some? && !(LowerAll(set t | t in required) <= LowerAll(c.after.value.tags.Keys))
  }

  predicate Over(b: BudgetEvaluation, percent: real) {
    b.utilization.Some? && b.utilization.value > percent
  }

  /** What a condition means. */
  predicate Matches(c: Condition, f: Facts) {
    match c
    case AllOf(cs) => forall i :: 0 <= i < |cs| ==> Matches(cs[i], f)
    case AnyOf(cs) => exists i :: 0 <= i < |cs| && Matches(cs[i], f)
    case Negate(inner) => !Matches(inner, f)
    case DeltaGreaterThan(limit) => f.totals.delta > limit
    case DeltaPercentGreaterThan(percent) =>
      // a new stack has nothing to be a percentage of
      f.totals.current > 0.0 && f.totals.delta / f.totals.current * 100.0 > percent
    case OneTimeGreaterThan(limit) => f.totals.oneTime > limit
    case TypesChanged(operation, types) =>
      exists i :: 0 <= i < |f.changes| && f.changes[i].operation == operation && f.changes[i].resourceType in types
    case UnknownTypes(types) => exists t :: t in types && t in f.unknownTypes
    case UnknownCountGreaterThan(count) => f.totals.unknownCount > count
    case ConfidenceAtMost(ceiling) => ConfidenceRank(f.confidence) <= ConfidenceRank(ceiling)
    case UtilizationGreaterThan(percent) => exists i :: 0 <= i < |f.budgets| && Over(f.budgets[i], percent)
    case BudgetIncreaseExceeds(limit) => exists i :: 0 <= i < |f.budgets| && f.budgets[i].delta > limit
    case TagsMissing(required) => exists i :: 0 <= i < |f.changes| && LacksTag(f.changes[i], required)
    case RegionNotIn(regions) => f.region !in regions
  }

  /** The additions that lack a required tag, in order. */
  method RequiredTagsMissing(required: seq<string>, changes: seq<ResourceChange>) returns (offenders: seq<ResourceKey>)
    ensures offenders != [] <==> exists i :: 0 <= i < |changes| && LacksTag(changes[i], required)
    ensures forall k :: k in offenders <==> exists i :: 0 <= i < |changes| && LacksTag(changes[i], required) && changes[i].after.value.key == k
  {
    var wanted := LowerAll(set t | t in required);
    offenders := [];
    for i := 0 to |changes|
      invariant offenders != [] <==> exists j :: 0 <= j < i && LacksTag(changes[j], required)
      invariant forall k :: k in offenders <==> exists j :: 0 <= j < i && LacksTag(changes[j], required) && changes[j].after.value.key == k
    {
      if !changes[i].operation.Add? || changes[i].after.None? {
        continue;
      }
      var present := LowerAll(changes[i].after.value.tags.Keys);
      var missing := wanted - present;
      assert forall x :: x in wanted ==> x in missing || x in present;
      assert wanted <= present ==> missing == {};
      if missing != {} {
        offenders := offenders + [changes[i].after.value.key];
      }
    }
  }

  /** The changes of one kind to one of the watched types, in order. */
  method ChangesOfTypes(operation: Operation, wanted: seq<string>, changes: seq<ResourceChange>) returns (found: seq<ResourceChange>)
    ensures forall c :: c in found <==> c in changes && c.operation == operation && c.resourceType in wanted
  {
    found := [];
    for i := 0 to |changes|
      invariant forall c :: c in found <==> c in changes[..i] && c.operation == operation && c.resourceType in wanted
    {
      assert changes[..i + 1] == changes[..i] + [changes[i]];
      if changes[i].operation == operation && changes[i].resourceType in wanted {
        found := found + [changes[i]];
      }
    }
    assert changes[..|changes|] == changes;
  }

  /** The budgets above a utilisation. */
  method BudgetsAbove(percent: real, budgets: seq<BudgetEvaluation>) returns (over: seq<BudgetEvaluation>)
    ensures forall b :: b in over <==> b in budgets && Over(b, percent)
  {
    over := [];
    for i := 0 to |budgets|
      invariant forall b :: b in over <==> b in budgets[..i] && Over(b, percent)
    {
      assert budgets[..i + 1] == budgets[..i] + [budgets[i]];
      if budgets[i].utilization.Some? && budgets[i].utilization.value > percent {
        over := over + [budgets[i]];
      }
    }
    assert budgets[..|budgets|] == budgets;
  }

  /** The budgets a change adds more than a limit to. */
  method BudgetsRaisedBy(limit: real, budgets: seq<BudgetEvaluation>) returns (over: seq<BudgetEvaluation>)
    ensures forall b :: b in over <==> b in budgets && b.delta > limit
  {
    over := [];
    for i := 0 to |budgets|
      invariant forall b :: b in over <==> b in budgets[..i] && b.delta > limit
    {
      assert budgets[..i + 1] == budgets[..i] + [budgets[i]];
      if budgets[i].delta > limit {
        over := over + [budgets[i]];
      }
    }
    assert budgets[..|budgets|] == budgets;
  }

  predicate IsGroup(c: Condition) {
    c.AllOf? || c.AnyOf? || c.Negate?
  }

  /** A single predicate, by its handler. */
  method EvaluatePredicate(c: Condition, f: Facts) returns (matched: bool)
    requires !IsGroup(c)
    ensures matched == Matches(c, f)
  {
    hide LacksTag, Over;
    match c
    case DeltaGreaterThan(limit) =>
      matched := f.totals.delta > limit;
    case DeltaPercentGreaterThan(percent) =>
      if f.totals.current <= 0.0 {
        return false;
      }
      var grown := f.totals.delta / f.totals.current * 100.0;
      matched := grown > percent;
    case OneTimeGreaterThan(limit) =>
      matched := f.totals.oneTime > limit;
    case TypesChanged(operation, types) =>
      var found := ChangesOfTypes(operation, types, f.changes);
      matched := found != [];
      assert found != [] ==> found[0] in f.changes;
    case UnknownTypes(types) =>
      var found := (set t | t in types) * f.unknownTypes;
      matched := found != {};
      assert forall t :: t in found <==> t in types && t in f.unknownTypes;
    case UnknownCountGreaterThan(count) =>
      matched := f.totals.unknownCount > count;
    case ConfidenceAtMost(ceiling) =>
      matched := ConfidenceRank(f.confidence) <= ConfidenceRank(ceiling);
    case UtilizationGreaterThan(percent) =>
      var over := BudgetsAbove(percent, f.budgets);
      matched := over != [];
      assert over != [] ==> over[0] in f.budgets;
    case BudgetIncreaseExceeds(limit) =>
      var over := BudgetsRaisedBy(limit, f.budgets);
      matched := over != [];
      assert over != [] ==> over[0] in f.budgets;
    case TagsMissing(required) =>
      var offenders := RequiredTagsMissing(required, f.changes);
      matched := offenders != [];
    case RegionNotIn(regions) =>
      matched := f.region !in regions;
  }

  // ----- evaluation keeps every child's reasoning -----

  datatype Outcome = Outcome(matched: bool, evidence: seq<string>)

  /** How a single predicate words its evidence. */
  type Wording = (Condition, Facts) -> seq<string>

  ghost function EvidenceOf(c: Condition, f: Facts, wording: Wording): iset<string> {
    match c
    case AllOf(cs) => iset i, x | 0 <= i < |cs| && x in EvidenceOf(cs[i], f, wording) :: x
    case AnyOf(cs) => iset i, x | 0 <= i < |cs| && x in EvidenceOf(cs[i], f, wording) :: x
    case Negate(inner) => EvidenceOf(inner, f, wording)
    case _ => iset x | x in wording(c, f)
  }

  /** Every child is evaluated, none is skipped; nothing is said twice within a group. */
  method EvaluateCondition(c: Condition, f: Facts, wording: Wording) returns (o: Outcome)
    ensures o.matched == Matches(c, f)
    ensures forall x :: x in o.evidence <==> x in EvidenceOf(c, f, wording)
    ensures c.AllOf? || c.AnyOf? ==> Distinct(o.evidence)
    decreases c
  {
    hide AppendNew, Distinct, LacksTag, Over;
    if c.AllOf? || c.AnyOf? {
      var evidence: seq<string>, all, any := [], true, false;
      NothingIsDistinct();
      for i := 0 to |c.conditions|
        invariant all <==> forall j :: 0 <= j < i ==> Matches(c.conditions[j], f)
        invariant any <==> exists j :: 0 <= j < i && Matches(c.conditions[j], f)
        invariant forall x :: x in evidence <==> exists j :: 0 <= j < i && x in EvidenceOf(c.conditions[j], f, wording)
        invariant Distinct(evidence)
      {
        var result := EvaluateCondition(c.conditions[i], f, wording);
        all, any := all && result.matched, any || result.matched;
        AppendNewMembers(evidence, result.evidence);
        evidence := AppendNewByLoop(evidence, result.evidence);
      }
      o := Outcome(if c.AllOf? then all else any, evidence);
    } else if c.Negate? {
      o := EvaluateCondition(c.inner, f, wording);
      o := Outcome(!o.matched, o.evidence);
    } else {
      var matched := EvaluatePredicate(c, f);
      o := Outcome(matched, wording(c, f));
    }
  }

  lemma NothingIsDistinct()
    ensures Distinct([])
  {
  }

  // ----- policies -----

  datatype PolicyScope = PolicyScope(environments: Option<seq<string>>, applications: Option<seq<string>>)

  predicate Allows(listed: Option<seq<string>>, name: Option<string>) {
    listed.Some? ==> name.Some? && name.value in listed.value
  }

  predicate AppliesTo(scope: PolicyScope, environment: Option<string>, application: Option<string>) {
    Allows(scope.environments, environment) && Allows(scope.applications, application)
  }

  datatype Policy = Policy(
    id: string, description: string, scope: PolicyScope, condition: Condition, action: PolicyAction,
    severity: Severity, approverGroup: string)

  /** What loading a policy guarantees: only approval names an approver, and it always does. */
  ghost predicate ValidPolicy(p: Policy) {
    ValidCondition(p.condition) && (p.action.RequireApprovalAction? <==> p.approverGroup != "")
  }

  /** The program's own wording of a condition that holds; never blank. */
  const CONDITION_HELD := "condition held"

  predicate Fires(p: Policy, f: Facts) {
    AppliesTo(p.scope, f.environment, f.application) && Matches(p.condition, f)
  }

  function EvaluatePolicy(p: Policy, f: Facts): PolicyEvaluation {
    if !Fires(p, f) then PolicyEvaluation(p.id, false, "", None, p.severity, "")
    else
      PolicyEvaluation(p.id, true, if p.description != "" then p.description else CONDITION_HELD,
                       Some(p.action), p.severity, p.approverGroup)
  }

  function EvaluatePolicies(ps: seq<Policy>, f: Facts): (es: seq<PolicyEvaluation>)
    ensures |es| == |ps|
    ensures forall i :: 0 <= i < |ps| ==> es[i] == EvaluatePolicy(ps[i], f)
  {
    if ps == [] then [] else [EvaluatePolicy(ps[0], f)] + EvaluatePolicies(ps[1..], f)
  }

  /** A loaded policy's evaluation passes its own check unless the policy fires under a
      description that is not empty but blank. */
  lemma PolicyEvaluationIsValidExactly(p: Policy, f: Facts)
    requires ValidPolicy(p)
    ensures ValidEvaluation(EvaluatePolicy(p, f)) <==> !(Fires(p, f) && p.description != "" && IsBlank(p.description))
  {
    hide Matches, ValidCondition;
    assert !IsSpace(CONDITION_HELD[0]);
  }
}
