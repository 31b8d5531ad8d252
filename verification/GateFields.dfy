/** What each policy evaluation and the decision say, told on their own fields. */
module GateFields {
  import opened Templates
  import opened Ordering
  import opened Lattices
  import opened Resources
  import opened Diff
  import opened Estimation
  import opened Decisions
  import opened Policies

  // ----- one policy -----

  /** A policy concerns the environments and the applications it lists, or all of them. */
  ghost predicate Concerns(p: Policy, f: Facts) {
    && (p.scope.environments.None? || (f.environment.Some? && f.environment.value in p.scope.environments.value))
    && (p.scope.applications.None? || (f.application.Some? && f.application.value in p.scope.applications.value))
  }

  lemma PolicyInFields(p: Policy, f: Facts)
    ensures var e := EvaluatePolicy(p, f);
            && e.id == p.id && e.severity == p.severity
            && (e.matched <==> Concerns(p, f) && Matches(p.condition, f))
            && if e.matched then
                 && e.action == Some(p.action) && e.approverGroup == p.approverGroup
                 && (if p.description != "" then e.reason == p.description else !IsBlank(e.reason))
               else e.action.None? && e.reason == "" && e.approverGroup == ""
  {
    hide Matches, IsBlank;
    assert !IsBlank(CONDITION_HELD) by { HeldIsNotBlank(); }
  }

  lemma HeldIsNotBlank()
    ensures !IsBlank(CONDITION_HELD)
  {
    assert !IsSpace(CONDITION_HELD[0]);
  }

  /** Confidence is ordered unknown, low, medium, high. */
  lemma CeilingInFields(ceiling: Confidence, f: Facts)
    ensures Matches(ConfidenceAtMost(ceiling), f)
            <==> match ceiling
                 case UnknownConfidence => f.confidence.UnknownConfidence?
                 case Low => f.confidence.UnknownConfidence? || f.confidence.Low?
                 case Medium => !f.confidence.High?
                 case High => true
  {
  }

  const UPPER := "ABCDEFGHIJKLMNOPQRSTUVWXYZ"
  const LOWER := "abcdefghijklmnopqrstuvwxyz"

  /** Tags are compared without regard to the case of their letters, and of nothing else. */
  lemma LowerInFields(c: char)
    ensures forall i :: 0 <= i < 26 && c == UPPER[i] ==> LowerChar(c) == LOWER[i]
    ensures !('A' <= c <= 'Z') ==> LowerChar(c) == c
  {
    assert forall i :: 0 <= i < 26 ==> UPPER[i] as int == 65 + i && LOWER[i] as int == 97 + i;
  }

  /** No tag of the resource has the wanted key, however it is written. */
  ghost predicate Untagged(x: Resource, wanted: string) {
    forall tag :: tag in x.tags ==> Lower(tag) != Lower(wanted)
  }

  lemma MissingTagsInFields(required: seq<string>, f: Facts)
    ensures Matches(TagsMissing(required), f)
            <==> exists c, wanted :: c in f.changes && c.operation.Add? && c.after.Some? && wanted in required && Untagged(c.after.value, wanted)
  {
    hide Lower;
    forall c: ResourceChange
      ensures LacksTag(c, required)
              <==> c.operation.Add? && c.after.Some? && exists wanted :: wanted in required && Untagged(c.after.value, wanted)
    {
      LacksInFields(c, required);
    }
    if i :| 0 <= i < |f.changes| && LacksTag(f.changes[i], required) { assert f.changes[i] in f.changes; }
  }

  lemma LacksInFields(c: ResourceChange, required: seq<string>)
    ensures LacksTag(c, required)
            <==> c.operation.Add? && c.after.Some? && exists wanted :: wanted in required && Untagged(c.after.value, wanted)
  {
    hide Lower;
    if c.operation.Add? && c.after.Some? {
      var tags, wants := c.after.value.tags, set t | t in required;
      forall wanted | wanted in required
        ensures Lower(wanted) in LowerAll(wants) && (Lower(wanted) in LowerAll(tags.Keys) <==> exists tag :: tag in tags && Lower(tag) == Lower(wanted))
      {
        assert wanted in wants;
        if tag :| tag in tags && Lower(tag) == Lower(wanted) { assert tag in tags.Keys; }
      }
      if !(LowerAll(wants) <= LowerAll(tags.Keys)) {
        var low :| low in LowerAll(wants) && low !in LowerAll(tags.Keys);
        var wanted :| wanted in wants && Lower(wanted) == low;
        assert wanted in required;
      }
    }
  }

  /** A dollar either way matters, and so does an amount nobody knows. */
  lemma MaterialInFields(c: CostComponent)
    ensures IsMaterial(c) <==> c.delta.None? || c.delta.value >= 1.0 || c.delta.value <= -1.0
  {
  }

  // ----- the decision -----

  ghost predicate Asked(es: seq<PolicyEvaluation>, action: PolicyAction) {
    exists e :: e in es && e.matched && e.action == Some(action)
  }

  /** Errors outrank everything; then the strictest action that anything matched asks for. */
  lemma ResultInFields(es: seq<PolicyEvaluation>, totals: CostTotals, errors: seq<string>)
    ensures var d := BuildDecision(es, totals, errors);
            && d.totals == totals && d.evaluations == es && d.errors == errors
            && (!d.result.RequireApproval? ==> d.approvers == [])
            && d.result == if errors != [] then Error
                           else if Asked(es, BlockAction) then Block
                           else if Asked(es, RequireApprovalAction) then RequireApproval
                           else if Asked(es, WarnAction) then Warn
                           else Pass
  {
    hide Arranged, ReasonsFor, FiredOnly, Results, Highest, ErrorReasons;
    if errors == [] {
      FiredMembers(es);
      var h := Highest(Results(es));
      ResultsMembers(es, h);
      forall action: PolicyAction
        ensures ToResult(action) in Results(es) <==> Asked(es, action)
      {
        ResultsMembers(es, ToResult(action));
        DifferentResults();
      }
      ResultsAreActions(es);
    }
  }

  /** Of several results the highest stands: pass, warn, require approval, block, error. */
  lemma LatticeInFields(results: seq<GateResult>)
    ensures Highest(results) == if Error in results then Error
                                else if Block in results then Block
                                else if RequireApproval in results then RequireApproval
                                else if Warn in results then Warn
                                else Pass
  {
    var h := Highest(results);
    assert h == Pass || h in results;
  }

  lemma DifferentResults()
    ensures forall x: PolicyAction, y: PolicyAction :: ToResult(x) == ToResult(y) ==> x == y
  {
  }

  lemma ResultsAreActions(es: seq<PolicyEvaluation>)
    ensures forall r :: r in Results(es) ==> r == Warn || r == RequireApproval || r == Block
  {
    hide Results;
    forall r | r in Results(es)
      ensures r == Warn || r == RequireApproval || r == Block
    {
      ResultsMembers(es, r);
    }
  }

  // ----- its reasons -----

  predicate AtLeastAsSevere(x: Severity, y: Severity) {
    x.CriticalSeverity? || (x.HighSeverity? && !y.CriticalSeverity?) || (x.MediumSeverity? && (y.MediumSeverity? || y.LowSeverity?)) || y.LowSeverity?
  }

  lemma SeverityInFields(x: Severity, y: Severity)
    ensures SeverityRank(x) >= SeverityRank(y) <==> AtLeastAsSevere(x, y)
  {
  }

  lemma MoreSevereRanks()
    ensures Ranks(MoreSevere)
  {
    hide TextAtMost;
    TextRanks();
  }

  /** Without errors the reasons are those of what matched, the most severe first, and by
      identifier among equals. */
  lemma ReasonsInFields(es: seq<PolicyEvaluation>, totals: CostTotals)
    ensures var reasons := BuildDecision(es, totals, []).reasons;
            && (forall r :: r in reasons <==> exists e :: e in es && Fired(e) && r == Reason(e.reason, Some(e.id), e.severity))
            && (forall i, j :: 0 <= i < j < |reasons| ==>
                  && AtLeastAsSevere(reasons[i].severity, reasons[j].severity)
                  && (reasons[i].severity == reasons[j].severity ==> TextAtMost(reasons[i].id.value, reasons[j].id.value)))
  {
    hide SortBy, Arranged, Highest, Results, FiredOnly, TextAtMost, SeverityRank, AtLeastAsSevere;
    var sorted := SortBy(FiredOnly(es), MoreSevere);
    SortKeepsItems(FiredOnly(es), MoreSevere);
    MoreSevereRanks();
    SortSorts(FiredOnly(es), MoreSevere);
    FiredMembers(es);
    var reasons := ReasonsFor(es);
    assert BuildDecision(es, totals, []).reasons == reasons;
    forall e
      ensures e in sorted <==> e in es && Fired(e)
    {
      assert e in sorted <==> e in multiset(sorted);
      assert e in FiredOnly(es) <==> e in multiset(FiredOnly(es));
    }
    forall r
      ensures r in reasons <==> exists e :: e in es && Fired(e) && r == Reason(e.reason, Some(e.id), e.severity)
    {
      if r in reasons {
        var i :| 0 <= i < |reasons| && reasons[i] == r;
        assert sorted[i] in sorted;
      }
      if e :| e in es && Fired(e) && r == Reason(e.reason, Some(e.id), e.severity) {
        assert e in sorted;
        var i :| 0 <= i < |sorted| && sorted[i] == e;
        assert reasons[i] == r;
      }
    }
    forall i, j | 0 <= i < j < |reasons|
      ensures AtLeastAsSevere(reasons[i].severity, reasons[j].severity)
      ensures reasons[i].severity == reasons[j].severity ==> TextAtMost(reasons[i].id.value, reasons[j].id.value)
    {
      assert MoreSevere(sorted[i], sorted[j]);
      SeverityInFields(sorted[i].severity, sorted[j].severity);
    }
  }

  /** With errors the reasons are the errors, in order, each of high severity. */
  lemma ErrorReasonsInFields(es: seq<PolicyEvaluation>, totals: CostTotals, errors: seq<string>)
    requires errors != []
    ensures var reasons := BuildDecision(es, totals, errors).reasons;
            |reasons| == |errors| && forall i :: 0 <= i < |errors| ==> reasons[i] == Reason(errors[i], None, HighSeverity)
  {
    hide Highest, Results, FiredOnly, ReasonsFor, Arranged;
  }
}
