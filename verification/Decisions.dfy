/** Policy evaluations and the decision they imply. */
module Decisions {
  import opened Templates
  import opened Ordering
  import opened Lattices
  import opened Diff
  import opened Estimation

  datatype Severity = LowSeverity | MediumSeverity | HighSeverity | CriticalSeverity

  function SeverityRank(s: Severity): nat {
    match s
    case LowSeverity => 0
    case MediumSeverity => 1
    case HighSeverity => 2
    case CriticalSeverity => 3
  }

  /** An empty approver group stands for none: the program never tells them apart. */
  datatype PolicyEvaluation = PolicyEvaluation(
    id: string, matched: bool, reason: string, action: Option<PolicyAction>, severity: Severity, approverGroup: string)

  /** The validator of an evaluation: what matched explains itself. */
  predicate ValidEvaluation(e: PolicyEvaluation) {
    e.matched ==>
      && e.action.Some?
      && !IsBlank(e.reason)
      && (e.action == Some(RequireApprovalAction) ==> e.approverGroup != "")
  }

  predicate BlockingEvaluation(e: PolicyEvaluation) {
    e.matched && e.action.Some? && !e.action.value.WarnAction?
  }

  predicate BlockingResult(r: GateResult) {
    ResultRank(r) >= ResultRank(RequireApproval)
  }

  function Higher(x: GateResult, y: GateResult): GateResult {
    if ResultRank(y) > ResultRank(x) then y else x
  }

  /** The highest of several results, `Pass` when there are none. */
  function Highest(results: seq<GateResult>): (h: GateResult)
    ensures forall r :: r in results ==> ResultRank(r) <= ResultRank(h)
    ensures h == Pass || h in results
  {
    if results == [] then Pass else Higher(Highest(results[..|results| - 1]), results[|results| - 1])
  }

  method CombineResults(results: seq<GateResult>) returns (highest: GateResult)
    ensures highest == Highest(results)
    ensures forall r :: r in results ==> ResultRank(r) <= ResultRank(highest)
    ensures highest == Pass || highest in results
  {
    highest := Pass;
    for i := 0 to |results|
      invariant highest == Highest(results[..i])
    {
      assert results[..i + 1][..i] == results[..i];
      highest := Higher(highest, results[i]);
    }
    assert results[..|results|] == results;
  }

  predicate Fired(e: PolicyEvaluation) {
    e.matched && e.action.Some?
  }

  function Results(es: seq<PolicyEvaluation>): seq<GateResult> {
    if es == [] then []
    else (if Fired(es[0]) then [ToResult(es[0].action.value)] else []) + Results(es[1..])
  }

  lemma {:induction false} ResultsMembers(es: seq<PolicyEvaluation>, r: GateResult)
    ensures r in Results(es) <==> exists e :: e in es && Fired(e) && ToResult(e.action.value) == r
  {
    if es != [] {
      ResultsMembers(es[1..], r);
      assert es == [es[0]] + es[1..];
    }
  }

  ghost function GroupsOf(es: seq<PolicyEvaluation>): set<string> {
    set e | e in es && e.matched && e.approverGroup != "" :: e.approverGroup
  }

  datatype Reason = Reason(text: string, id: Option<string>, severity: Severity)

  datatype GateDecision = GateDecision(
    result: GateResult, totals: CostTotals, evaluations: seq<PolicyEvaluation>,
    reasons: seq<Reason>, approvers: seq<string>, errors: seq<string>)

  /** The validator of a decision: the recorded result is the one the evaluations imply. */
  ghost predicate Consistent(d: GateDecision) {
    if d.result.Error? then d.errors != []
    else
      && d.errors == []
      && Highest(Results(d.evaluations)) == d.result
      && (d.result.RequireApproval? ==> SortBy(d.approvers, TextAtMost) == Arranged(GroupsOf(d.evaluations)))
  }

  predicate MoreSevere(x: PolicyEvaluation, y: PolicyEvaluation) {
    || SeverityRank(x.severity) > SeverityRank(y.severity)
    || (SeverityRank(x.severity) == SeverityRank(y.severity) && TextAtMost(x.id, y.id))
  }

  function FiredOnly(es: seq<PolicyEvaluation>): seq<PolicyEvaluation> {
    if es == [] then [] else (if Fired(es[0]) then [es[0]] else []) + FiredOnly(es[1..])
  }

  function ReasonsFor(es: seq<PolicyEvaluation>): seq<Reason> {
    var sorted := SortBy(FiredOnly(es), MoreSevere);
    seq(|sorted|, i requires 0 <= i < |sorted| => Reason(sorted[i].reason, Some(sorted[i].id), sorted[i].severity))
  }

  function ErrorReasons(errors: seq<string>): seq<Reason> {
    seq(|errors|, i requires 0 <= i < |errors| => Reason(errors[i], None, HighSeverity))
  }

  /** Errors outrank everything; otherwise the highest action that fired decides. */
  ghost function BuildDecision(es: seq<PolicyEvaluation>, totals: CostTotals, errors: seq<string>): GateDecision {
    if errors != [] then GateDecision(Error, totals, es, ErrorReasons(errors), [], errors)
    else
      var result := Highest(Results(FiredOnly(es)));
      var groups := Arranged(GroupsOf(FiredOnly(es)));
      GateDecision(result, totals, es, ReasonsFor(es), if result.RequireApproval? then groups else [], [])
  }

  lemma {:induction false} FiredMembers(es: seq<PolicyEvaluation>)
    ensures forall e :: e in FiredOnly(es) <==> e in es && Fired(e)
    ensures Results(FiredOnly(es)) == Results(es)
  {
    if es != [] {
      FiredMembers(es[1..]);
      assert es == [es[0]] + es[1..];
      if Fired(es[0]) {
        assert FiredOnly(es)[1..] == FiredOnly(es[1..]);
      } else {
        assert FiredOnly(es) == FiredOnly(es[1..]) && Results(es) == Results(es[1..]);
      }
    }
  }

  lemma ArrangedIsItsOwnSort(s: set<string>)
    ensures SortBy(Arranged(s), TextAtMost) == Arranged(s)
  {
    hide SortBy, Arranged;
    ArrangedMembers(s);
    SortingArranges(Arranged(s), s);
  }

  /** Every decision that is built passes its own consistency check. */
  lemma DecisionIsConsistent(es: seq<PolicyEvaluation>, totals: CostTotals, errors: seq<string>)
    requires forall e :: e in es ==> ValidEvaluation(e)
    ensures Consistent(BuildDecision(es, totals, errors))
  {
    hide SortBy, Arranged, ReasonsFor, Highest, FiredOnly, Results;
    if errors == [] {
      FiredMembers(es);
      assert GroupsOf(FiredOnly(es)) == GroupsOf(es);
      ArrangedIsItsOwnSort(GroupsOf(es));
      NeverError(es);
    }
  }

  lemma NeverError(es: seq<PolicyEvaluation>)
    ensures !Highest(Results(es)).Error?
  {
    ResultsMembers(es, Error);
  }

  /** Whatever fires in the first list fires in the second, at least as severely. */
  ghost predicate Covered(xs: seq<PolicyEvaluation>, ys: seq<PolicyEvaluation>) {
    forall x :: x in xs && Fired(x) ==>
      exists y :: y in ys && Fired(y) && ResultRank(ToResult(x.action.value)) <= ResultRank(ToResult(y.action.value))
  }

  lemma CoveredNeverLowers(xs: seq<PolicyEvaluation>, ys: seq<PolicyEvaluation>)
    requires Covered(xs, ys)
    ensures ResultRank(Highest(Results(xs))) <= ResultRank(Highest(Results(ys)))
  {
    var h := Highest(Results(xs));
    if h != Pass {
      ResultsMembers(xs, h);
      var x :| x in xs && Fired(x) && ToResult(x.action.value) == h;
      var y :| y in ys && Fired(y) && ResultRank(h) <= ResultRank(ToResult(y.action.value));
      ResultsMembers(ys, ToResult(y.action.value));
    }
  }

  /** Adding evaluations, anywhere and in any order, never lowers the result. */
  lemma AddingNeverLowers(xs: seq<PolicyEvaluation>, ys: seq<PolicyEvaluation>, totals: CostTotals, errors: seq<string>)
    requires forall x :: x in xs ==> x in ys
    ensures ResultRank(BuildDecision(xs, totals, errors).result) <= ResultRank(BuildDecision(ys, totals, errors).result)
  {
    hide Arranged, ReasonsFor, FiredOnly, Results, Highest;
    FiredMembers(xs);
    FiredMembers(ys);
    CoveredNeverLowers(xs, ys);
  }

  /** The result and the approvers depend on which evaluations there are, not on their order. */
  lemma OrderIsIrrelevant(xs: seq<PolicyEvaluation>, ys: seq<PolicyEvaluation>, totals: CostTotals, errors: seq<string>)
    requires forall e :: e in xs <==> e in ys
    ensures BuildDecision(xs, totals, errors).result == BuildDecision(ys, totals, errors).result
    ensures BuildDecision(xs, totals, errors).approvers == BuildDecision(ys, totals, errors).approvers
  {
    hide Arranged, ReasonsFor, FiredOnly, Results, Highest;
    AddingNeverLowers(xs, ys, totals, errors);
    AddingNeverLowers(ys, xs, totals, errors);
    FiredMembers(xs);
    FiredMembers(ys);
    assert GroupsOf(FiredOnly(xs)) == GroupsOf(FiredOnly(ys));
  }

  /** A decision without errors stops the change exactly when some evaluation asks for it. */
  lemma BlocksExactlyWhenAsked(es: seq<PolicyEvaluation>, totals: CostTotals)
    ensures BlockingResult(BuildDecision(es, totals, []).result) <==> exists e :: e in es && BlockingEvaluation(e)
  {
    hide Arranged, ReasonsFor, FiredOnly, Results;
    FiredMembers(es);
    var h := Highest(Results(es));
    ResultsMembers(es, h);
    if e :| e in es && BlockingEvaluation(e) {
      ResultsMembers(es, ToResult(e.action.value));
    }
  }

  /** Required approval always names someone: the groups of everything that matched. */
  lemma ApprovalNamesSomeone(es: seq<PolicyEvaluation>, totals: CostTotals)
    requires forall e :: e in es ==> ValidEvaluation(e)
    requires BuildDecision(es, totals, []).result.RequireApproval?
    ensures BuildDecision(es, totals, []).approvers != []
    ensures forall g :: g in BuildDecision(es, totals, []).approvers <==>
              exists e :: e in es && e.matched && e.approverGroup != "" && e.approverGroup == g
  {
    hide Arranged, ReasonsFor, FiredOnly, Results, IsBlank;
    FiredMembers(es);
    ResultsMembers(es, RequireApproval);
    assert GroupsOf(FiredOnly(es)) == GroupsOf(es);
    ArrangedMembers(GroupsOf(es));
    var e :| e in es && Fired(e) && ToResult(e.action.value) == RequireApproval;
    assert e.approverGroup in GroupsOf(es);
  }

  // ----- checking a whole artifact -----

  datatype Artifact = Artifact(cost: CostReport, decision: GateDecision, monthlyHours: int, provider: string)

  datatype ArtifactProblem =
    | InReport(problem: Problem) | OtherTotals | NobodyNamed | NotBlocking | OtherHours | NoRateSource

  predicate DecisionAgrees(a: Artifact) {
    && a.decision.totals == a.cost.totals
    && (a.decision.result.RequireApproval? ==> a.decision.approvers != [])
    && ((exists i :: 0 <= i < |a.decision.evaluations| && BlockingEvaluation(a.decision.evaluations[i])) ==> BlockingResult(a.decision.result))
  }

  method ReconcileArtifact(a: Artifact) returns (problems: seq<ArtifactProblem>)
    ensures problems == [] <==>
              && AddsUp(a.cost) && DecisionAgrees(a)
              && a.cost.totals.monthlyHours == a.monthlyHours
              && (a.cost.components != [] ==> a.provider != "")
  {
    hide AddsUp;
    var inReport := ReconcileReport(a.cost);
    problems := seq(|inReport|, i requires 0 <= i < |inReport| => InReport(inReport[i]));
    if a.decision.totals != a.cost.totals {
      problems := problems + [OtherTotals];
    }
    if a.decision.result.RequireApproval? && a.decision.approvers == [] {
      problems := problems + [NobodyNamed];
    }
    var matchedBlocking := exists i :: 0 <= i < |a.decision.evaluations| && BlockingEvaluation(a.decision.evaluations[i]);
    if matchedBlocking && !BlockingResult(a.decision.result) {
      problems := problems + [NotBlocking];
    }
    if a.cost.totals.monthlyHours != a.monthlyHours {
      problems := problems + [OtherHours];
    }
    if a.cost.components != [] && a.provider == "" {
      problems := problems + [NoRateSource];
    }
  }

  /** A decision built from valid evaluations over the reported totals agrees with its artifact. */
  lemma BuiltDecisionAgrees(report: CostReport, es: seq<PolicyEvaluation>, errors: seq<string>, hours: int, provider: string)
    requires forall e :: e in es ==> ValidEvaluation(e)
    ensures DecisionAgrees(Artifact(report, BuildDecision(es, report.totals, errors), hours, provider))
  {
    hide Arranged, ReasonsFor, FiredOnly, Results, Highest, IsBlank;
    if errors == [] {
      BlocksExactlyWhenAsked(es, report.totals);
      if BuildDecision(es, report.totals, []).result.RequireApproval? { ApprovalNamesSomeone(es, report.totals); }
    }
  }
}
