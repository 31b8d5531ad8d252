/** Pricing both graphs over a matching, and checking that the report adds up. */
module Estimation {
  import opened Templates
  import opened Ordering
  import opened Lattices
  import opened Resources
  import opened Matching
  import opened Diff

  /** One billing dimension of one resource in one state.  Amounts are exact; assumptions and
      unknown inputs are one text each. */
  datatype DimensionEstimate = DimensionEstimate(
    dimension: string,
    estimateType: EstimateType,
    confidence: Confidence,
    monthly: Option<real>,
    oneTime: Option<real>,
    low: Option<real>,
    high: Option<real>,
    reasons: seq<string>,
    assumptions: seq<string>,
    unknownInputs: seq<string>)

  /** What an estimator promises of each dimension. */
  predicate Honest(e: DimensionEstimate) {
    && (e.monthly.None? <==> e.estimateType.UnknownEstimate?)
    && (e.monthly.Some? ==> !e.confidence.UnknownConfidence? && e.reasons != [])
    && (e.monthly.None? ==> e.unknownInputs != [])
    && (e.low.Some? && e.high.Some? ==> e.low.value <= e.high.value)
  }

  /** An estimator, with its pricing context fixed. */
  type Estimator = Resource -> seq<DimensionEstimate>

  ghost predicate HonestEstimator(estimator: Estimator) {
    forall r, e :: e in estimator(r) ==> Honest(e)
  }

  type Estimates = map<string, DimensionEstimate>

  /** Keyed by dimension; a later estimate for a dimension replaces an earlier one. */
  function ByDimension(es: seq<DimensionEstimate>): (m: Estimates)
    ensures forall d :: d in m ==> m[d] in es && m[d].dimension == d
    ensures forall e :: e in es ==> e.dimension in m
    decreases |es|
  {
    if es == [] then map[]
    else
      var last := es[|es| - 1];
      assert es == es[..|es| - 1] + [last];
      ByDimension(es[..|es| - 1])[last.dimension := last]
  }

  datatype CostComponent = CostComponent(
    id: string,
    resource: ResourceKey,
    dimension: string,
    current: Option<real>,
    proposed: Option<real>,
    delta: Option<real>,
    oneTime: Option<real>,
    low: Option<real>,
    high: Option<real>,
    estimateType: EstimateType,
    confidence: Confidence,
    reasons: seq<string>,
    assumptions: seq<string>,
    unknownInputs: seq<string>)

  predicate IsUnknown(c: CostComponent) {
    c.estimateType.UnknownEstimate?
  }

  /** The component validator: unknown is not zero, and a delta is derived. */
  predicate ValidComponent(c: CostComponent) {
    && (c.delta.None? <==> IsUnknown(c))
    && (IsUnknown(c) ==> c.confidence.UnknownConfidence? && c.unknownInputs != [])
    && (!IsUnknown(c) ==>
          && !c.confidence.UnknownConfidence?
          && c.current.Some? && c.proposed.Some?
          && c.delta == Some(c.proposed.value - c.current.value)
          && c.reasons != [])
    && (c.low.Some? && c.high.Some? ==> c.low.value <= c.high.value)
  }

  // ----- merging the two sides' explanations -----

  function ReasonsOf(e: DimensionEstimate): seq<string> { e.reasons }
  function AssumptionsOf(e: DimensionEstimate): seq<string> { e.assumptions }
  function InputsOf(e: DimensionEstimate): seq<string> { e.unknownInputs }

  predicate Distinct(xs: seq<string>) {
    forall i, j :: 0 <= i < |xs| && 0 <= j < |xs| && xs[i] == xs[j] ==> i == j
  }

  function AppendNew(done: seq<string>, xs: seq<string>): seq<string>
    decreases |xs|
  {
    if xs == [] then done else AppendNew(if xs[0] in done then done else done + [xs[0]], xs[1..])
  }

  method AppendNewByLoop(done: seq<string>, xs: seq<string>) returns (all: seq<string>)
    ensures all == AppendNew(done, xs)
  {
    all := done;
    assert xs[0..] == xs;
    for i := 0 to |xs|
      invariant AppendNew(all, xs[i..]) == AppendNew(done, xs)
    {
      assert xs[i..][1..] == xs[i + 1..];
      if xs[i] !in all {
        all := all + [xs[i]];
      }
    }
    assert xs[|xs|..] == [];
  }

  lemma {:induction false} AppendNewMembers(done: seq<string>, xs: seq<string>)
    ensures forall x :: x in AppendNew(done, xs) <==> x in done || x in xs
    ensures Distinct(done) ==> Distinct(AppendNew(done, xs))
    decreases |xs|
  {
    if xs != [] { AppendNewMembers(if xs[0] in done then done else done + [xs[0]], xs[1..]); }
  }

  function Side<T>(e: Option<DimensionEstimate>, f: DimensionEstimate -> seq<T>): seq<T> {
    match e case None => [] case Some(d) => f(d)
  }

  function Merged(before: Option<DimensionEstimate>, after: Option<DimensionEstimate>, f: DimensionEstimate -> seq<string>): seq<string> {
    AppendNew(AppendNew([], Side(before, f)), Side(after, f))
  }

  method Merge(before: Option<DimensionEstimate>, after: Option<DimensionEstimate>)
    returns (reasons: seq<string>, assumptions: seq<string>, unknowns: seq<string>)
    ensures reasons == Merged(before, after, ReasonsOf)
    ensures assumptions == Merged(before, after, AssumptionsOf)
    ensures unknowns == Merged(before, after, InputsOf)
  {
    reasons, assumptions, unknowns := [], [], [];
    if before.Some? {
      reasons := AppendNewByLoop(reasons, before.value.reasons);
      assumptions := AppendNewByLoop(assumptions, before.value.assumptions);
      unknowns := AppendNewByLoop(unknowns, before.value.unknownInputs);
    }
    if after.Some? {
      reasons := AppendNewByLoop(reasons, after.value.reasons);
      assumptions := AppendNewByLoop(assumptions, after.value.assumptions);
      unknowns := AppendNewByLoop(unknowns, after.value.unknownInputs);
    }
  }

  // ----- components -----

  function ComponentId(key: ResourceKey, dimension: string): string {
    KeyText(key) + "#" + dimension
  }

  /** A side without an estimate did not exist, which is a real zero. */
  function SideCost(e: Option<DimensionEstimate>): Option<real> {
    match e case None => Some(0.0) case Some(d) => d.monthly
  }

  function LowestConfidence(before: Option<DimensionEstimate>, after: Option<DimensionEstimate>): Confidence
    requires before.Some? || after.Some?
  {
    if before.None? then after.value.confidence
    else if after.None? then before.value.confidence
    else Weaker(before.value.confidence, after.value.confidence)
  }

  function BuildComponent(key: ResourceKey, dimension: string, before: Option<DimensionEstimate>, after: Option<DimensionEstimate>): CostComponent
    requires before.Some? || after.Some?
  {
    var present := if after.Some? then after.value else before.value;
    var reasons, assumptions := Merged(before, after, ReasonsOf), Merged(before, after, AssumptionsOf);
    var unknowns := Merged(before, after, InputsOf);
    var current, proposed := SideCost(before), SideCost(after);
    if current.None? || proposed.None? then
      CostComponent(ComponentId(key, dimension), key, dimension, current, proposed, None, None, None, None,
                    UnknownEstimate, UnknownConfidence, [], assumptions, if unknowns == [] then [dimension] else unknowns)
    else
      CostComponent(ComponentId(key, dimension), key, dimension, current, proposed, Some(proposed.value - current.value),
                    if after.Some? then after.value.oneTime else None,
                    if after.Some? then after.value.low else None,
                    if after.Some? then after.value.high else None,
                    present.estimateType, LowestConfidence(before, after), reasons, assumptions, [])
  }

  function Lookup1(m: Estimates, d: string): Option<DimensionEstimate> {
    if d in m then Some(m[d]) else None
  }

  ghost function BuildEach(key: ResourceKey, dimensions: seq<string>, before: Estimates, after: Estimates): (cs: seq<CostComponent>)
    requires forall d :: d in dimensions ==> d in before || d in after
    ensures |cs| == |dimensions|
    ensures forall i :: 0 <= i < |cs| ==> cs[i] == BuildComponent(key, dimensions[i], Lookup1(before, dimensions[i]), Lookup1(after, dimensions[i]))
    decreases |dimensions|
  {
    if dimensions == [] then []
    else
      hide BuildComponent, Lookup1;
      [BuildComponent(key, dimensions[0], Lookup1(before, dimensions[0]), Lookup1(after, dimensions[0]))]
      + BuildEach(key, dimensions[1..], before, after)
  }

  /** A component for every dimension either state mentions. */
  ghost function Paired(key: ResourceKey, before: Estimates, after: Estimates): seq<CostComponent> {
    ArrangedMembers(before.Keys + after.Keys);
    BuildEach(key, Arranged(before.Keys + after.Keys), before, after)
  }

  method Pair(key: ResourceKey, before: Estimates, after: Estimates) returns (components: seq<CostComponent>)
    ensures components == Paired(key, before, after)
  {
    hide BuildComponent, Arranged;
    var dimensions := SortedPaths(before.Keys + after.Keys);
    ArrangedMembers(before.Keys + after.Keys);
    components := [];
    forall j | 0 <= j < |dimensions|
      ensures dimensions[j] in before || dimensions[j] in after
    {
      assert dimensions[j] in before.Keys + after.Keys;
    }
    for i := 0 to |dimensions|
      invariant |components| == i
      invariant forall j :: 0 <= j < i ==>
                  components[j] == BuildComponent(key, dimensions[j], Lookup1(before, dimensions[j]), Lookup1(after, dimensions[j]))
    {
      var d := dimensions[i];
      components := components + [BuildComponent(key, d, Lookup1(before, d), Lookup1(after, d))];
    }
    assert components == BuildEach(key, dimensions, before, after);
  }

  // ----- totals -----

  datatype CostTotals = CostTotals(
    current: real, proposed: real, delta: real, fixedDelta: real, usageDelta: real, oneTime: real,
    unknownCount: int, monthlyHours: int)

  predicate Reconciles(t: CostTotals) {
    && t.current + t.delta == t.proposed
    && t.fixedDelta + t.usageDelta == t.delta
    && t.unknownCount >= 0
    && t.monthlyHours > 0
  }

  /** What a component adds to a sum of known amounts. */
  function Known(amount: Option<real>): real {
    match amount case None => 0.0 case Some(x) => x
  }

  type Measure = CostComponent -> real

  function Total(cs: seq<CostComponent>, f: Measure): real {
    if cs == [] then 0.0 else f(cs[0]) + Total(cs[1..], f)
  }

  function CurrentOf(c: CostComponent): real { if IsUnknown(c) then 0.0 else Known(c.current) }
  function ProposedOf(c: CostComponent): real { if IsUnknown(c) then 0.0 else Known(c.proposed) }
  function DeltaOf(c: CostComponent): real { if IsUnknown(c) then 0.0 else Known(c.delta) }
  function FixedOf(c: CostComponent): real { if Category(c.estimateType).FixedCost? then DeltaOf(c) else 0.0 }
  function UsageOf(c: CostComponent): real { if Category(c.estimateType).UsageCost? then DeltaOf(c) else 0.0 }
  function OneTimeOf(c: CostComponent): real { Known(c.oneTime) }

  function UnknownCountOf(cs: seq<CostComponent>): nat {
    if cs == [] then 0 else (if IsUnknown(cs[0]) then 1 else 0) + UnknownCountOf(cs[1..])
  }

  function TotalsOf(cs: seq<CostComponent>, hours: int): CostTotals {
    var current, proposed := Total(cs, CurrentOf), Total(cs, ProposedOf);
    CostTotals(current, proposed, proposed - current, Total(cs, FixedOf), Total(cs, UsageOf), Total(cs, OneTimeOf),
               UnknownCountOf(cs), hours)
  }

  /** Summing the known amounts one by one. */
  method SumKnown(values: seq<Option<real>>) returns (total: real)
    ensures total == Sum(FilterMap(values, (v: Option<real>) => v))
  {
    ghost var f := (v: Option<real>) => v;
    total := 0.0;
    ghost var done: seq<real> := [];
    FilterMapEnds(values, f, done);
    for i := 0 to |values|
      invariant done + FilterMap(values[i..], f) == FilterMap(values, f)
      invariant total == Sum(done)
    {
      FilterMapStep(values, i, f, done);
      if values[i].Some? {
        SumOfConcat(done, [values[i].value]);
        assert Sum([values[i].value]) == values[i].value;
        total := total + values[i].value;
        done := done + [values[i].value];
      }
    }
    FilterMapEnds(values, f, done);
  }

  // ----- the report -----

  datatype CostReport = CostReport(components: seq<CostComponent>, totals: CostTotals)

  predicate IdAtMost(x: CostComponent, y: CostComponent) {
    TextAtMost(x.id, y.id)
  }

  function PricesOf(r: Resource, estimator: Estimator): Estimates {
    ByDimension(estimator(r))
  }

  ghost function MatchComponents(ms: seq<Match>, estimator: Estimator): seq<CostComponent> {
    if ms == [] then []
    else Paired(ms[0].after.key, PricesOf(ms[0].before, estimator), PricesOf(ms[0].after, estimator))
         + MatchComponents(ms[1..], estimator)
  }

  ghost function RemovedComponents(rs: seq<Resource>, estimator: Estimator): seq<CostComponent> {
    if rs == [] then [] else Paired(rs[0].key, PricesOf(rs[0], estimator), map[]) + RemovedComponents(rs[1..], estimator)
  }

  ghost function AddedComponents(rs: seq<Resource>, estimator: Estimator): seq<CostComponent> {
    if rs == [] then [] else Paired(rs[0].key, map[], PricesOf(rs[0], estimator)) + AddedComponents(rs[1..], estimator)
  }

  ghost function AllComponents(r: MatchResult, estimator: Estimator): seq<CostComponent> {
    MatchComponents(r.matches, estimator) + RemovedComponents(r.removed, estimator) + AddedComponents(r.added, estimator)
  }

  ghost predicate IsEstimate(report: CostReport, pairing: MatchResult, estimator: Estimator, hours: int) {
    && report.components == SortBy(AllComponents(pairing, estimator), IdAtMost)
    && report.totals == TotalsOf(report.components, hours)
  }

  /** Price both graphs over a pairing and derive the difference. */
  method EstimateGraphs(pairing: MatchResult, estimator: Estimator, hours: int) returns (report: CostReport)
    ensures IsEstimate(report, pairing, estimator, hours)
  {
    hide Paired, SortBy, TotalsOf, PricesOf;
    var components: seq<CostComponent> := [];
    assert pairing.matches[0..] == pairing.matches;
    for i := 0 to |pairing.matches|
      invariant components + MatchComponents(pairing.matches[i..], estimator) == MatchComponents(pairing.matches, estimator)
    {
      var m := pairing.matches[i];
      assert pairing.matches[i..][1..] == pairing.matches[i + 1..];
      var more := Pair(m.after.key, PricesOf(m.before, estimator), PricesOf(m.after, estimator));
      components := components + more;
    }
    assert pairing.matches[|pairing.matches|..] == [];
    assert components + [] == components;
    ghost var done := components;
    assert pairing.removed[0..] == pairing.removed;
    for i := 0 to |pairing.removed|
      invariant components + RemovedComponents(pairing.removed[i..], estimator) == done + RemovedComponents(pairing.removed, estimator)
    {
      var r := pairing.removed[i];
      assert pairing.removed[i..][1..] == pairing.removed[i + 1..];
      var more := Pair(r.key, PricesOf(r, estimator), map[]);
      components := components + more;
    }
    assert pairing.removed[|pairing.removed|..] == [];
    assert components + [] == components;
    done := components;
    assert pairing.added[0..] == pairing.added;
    for i := 0 to |pairing.added|
      invariant components + AddedComponents(pairing.added[i..], estimator) == done + AddedComponents(pairing.added, estimator)
    {
      var a := pairing.added[i];
      assert pairing.added[i..][1..] == pairing.added[i + 1..];
      var more := Pair(a.key, map[], PricesOf(a, estimator));
      components := components + more;
    }
    assert pairing.added[|pairing.added|..] == [];
    assert components + [] == components;
    assert components == AllComponents(pairing, estimator);
    components := SortBy(components, IdAtMost);
    report := CostReport(components, TotalsOf(components, hours));
  }

  // ----- reconciliation of an assembled report -----

  datatype Problem =
    | TotalsDisagree | CategoriesDisagree | UnknownCountDisagrees | DeltasDisagree | FixedDeltasDisagree
    | UnknownNamesNothing(id: string) | KnownExplainsNothing(id: string) | IdentifiersRepeat | HoursNotPositive

  function Ids(cs: seq<CostComponent>): seq<string> {
    seq(|cs|, i requires 0 <= i < |cs| => cs[i].id)
  }

  predicate Explained(c: CostComponent) {
    if IsUnknown(c) then c.unknownInputs != [] else c.reasons != []
  }

  /** Everything an assembled report is checked for. */
  predicate AddsUp(report: CostReport) {
    var t, cs := report.totals, report.components;
    && t.current + t.delta == t.proposed
    && t.fixedDelta + t.usageDelta == t.delta
    && UnknownCountOf(cs) == t.unknownCount
    && Total(cs, DeltaOf) == t.delta
    && Total(cs, FixedOf) == t.fixedDelta
    && (forall i :: 0 <= i < |cs| ==> Explained(cs[i]))
    && Distinct(Ids(cs))
    && t.monthlyHours > 0
  }

  method ReconcileReport(report: CostReport) returns (problems: seq<Problem>)
    ensures problems == [] <==> AddsUp(report)
  {
    problems := [];
    var t, cs := report.totals, report.components;
    if t.current + t.delta != t.proposed {
      problems := problems + [TotalsDisagree];
    }
    if t.fixedDelta + t.usageDelta != t.delta {
      problems := problems + [CategoriesDisagree];
    }
    if UnknownCountOf(cs) != t.unknownCount {
      problems := problems + [UnknownCountDisagrees];
    }
    if Total(cs, DeltaOf) != t.delta {
      problems := problems + [DeltasDisagree];
    }
    if Total(cs, FixedOf) != t.fixedDelta {
      problems := problems + [FixedDeltasDisagree];
    }
    ghost var earlier := problems;
    for i := 0 to |cs|
      invariant problems == [] <==> earlier == [] && forall j :: 0 <= j < i ==> Explained(cs[j])
    {
      if IsUnknown(cs[i]) && cs[i].unknownInputs == [] {
        problems := problems + [UnknownNamesNothing(cs[i].id)];
      }
      if !IsUnknown(cs[i]) && cs[i].reasons == [] {
        problems := problems + [KnownExplainsNothing(cs[i].id)];
      }
    }
    var seen: set<string>, repeats := {}, false;
    for i := 0 to |cs|
      invariant forall x :: x in seen <==> exists j :: 0 <= j < i && cs[j].id == x
      invariant repeats <==> exists j, k :: 0 <= j < k < i && cs[j].id == cs[k].id
    {
      repeats := repeats || cs[i].id in seen;
      seen := seen + {cs[i].id};
    }
    RepeatsAreNotDistinct(cs);
    if repeats {
      problems := problems + [IdentifiersRepeat];
    }
    if t.monthlyHours <= 0 {
      problems := problems + [HoursNotPositive];
    }
  }

  lemma RepeatsAreNotDistinct(cs: seq<CostComponent>)
    ensures Distinct(Ids(cs)) <==> !exists j, k :: 0 <= j < k < |cs| && cs[j].id == cs[k].id
  {
    var ids := Ids(cs);
    assert forall i :: 0 <= i < |cs| ==> ids[i] == cs[i].id;
    if j, k :| 0 <= j < k < |cs| && cs[j].id == cs[k].id {
      assert ids[j] == ids[k];
    }
    if !Distinct(ids) {
      var i, j :| 0 <= i < |ids| && 0 <= j < |ids| && ids[i] == ids[j] && i != j;
      var lo, hi := if i < j then i else j, if i < j then j else i;
      assert cs[lo].id == cs[hi].id;
    }
  }
}
