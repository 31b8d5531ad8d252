/** What each cost component says of the two states behind it, told on its own fields. */
module Components {
  import opened Templates
  import opened Ordering
  import opened Lattices
  import opened Resources
  import opened Matching
  import opened Diff
  import opened Estimation
  import opened EstimationLaws
  import opened Policies

  type Priced = Option<DimensionEstimate>

  /** What a side costs: nothing where it does not exist, nobody knows where it was not priced. */
  function CostOf(side: Priced): Option<real> {
    if side.None? then Some(0.0) else side.value.monthly
  }

  ghost predicate SaidBySide(x: string, b: Priced, a: Priced, f: DimensionEstimate -> seq<string>) {
    (b.Some? && x in f(b.value)) || (a.Some? && x in f(a.value))
  }

  /** Both sides are priced: the difference is known, and no more certain than either side. */
  ghost predicate SpeaksKnown(c: CostComponent, b: Priced, a: Priced, was: real, now: real) {
    && c.delta == Some(now - was)
    && c.oneTime == (if a.Some? then a.value.oneTime else None)
    && c.low == (if a.Some? then a.value.low else None) && c.high == (if a.Some? then a.value.high else None)
    && (a.Some? ==> c.estimateType == a.value.estimateType) && (a.None? && b.Some? ==> c.estimateType == b.value.estimateType)
    && ((b.Some? && c.confidence == b.value.confidence) || (a.Some? && c.confidence == a.value.confidence))
    && (b.Some? ==> ConfidenceRank(c.confidence) <= ConfidenceRank(b.value.confidence))
    && (a.Some? ==> ConfidenceRank(c.confidence) <= ConfidenceRank(a.value.confidence))
    && (forall x :: x in c.reasons <==> SaidBySide(x, b, a, ReasonsOf)) && c.unknownInputs == []
  }

  /** A side is not priced: nothing is known of the difference, and why is said. */
  ghost predicate SpeaksUnknown(c: CostComponent, d: string, b: Priced, a: Priced) {
    && c.delta.None? && c.oneTime.None? && c.low.None? && c.high.None?
    && c.estimateType.UnknownEstimate? && c.confidence.UnknownConfidence? && c.reasons == []
    && (if exists x :: SaidBySide(x, b, a, InputsOf) then forall x :: x in c.unknownInputs <==> SaidBySide(x, b, a, InputsOf)
        else c.unknownInputs == [d])
  }

  ghost predicate SpeaksOfSides(c: CostComponent, key: ResourceKey, d: string, b: Priced, a: Priced) {
    var was, now := CostOf(b), CostOf(a);
    && c.id == key.stack + "/" + key.logicalId + "#" + d && c.resource == key && c.dimension == d
    && c.current == was && c.proposed == now
    && (forall x :: x in c.assumptions <==> SaidBySide(x, b, a, AssumptionsOf))
    && if was.Some? && now.Some? then SpeaksKnown(c, b, a, was.value, now.value) else SpeaksUnknown(c, d, b, a)
  }

  lemma BuiltComponentSpeaks(key: ResourceKey, d: string, b: Priced, a: Priced)
    requires b.Some? || a.Some?
    ensures SpeaksOfSides(BuildComponent(key, d, b, a), key, d, b, a)
  {
    hide Merged;
    MergedMembers(b, a, ReasonsOf);
    MergedMembers(b, a, AssumptionsOf);
    MergedMembers(b, a, InputsOf);
    var unknowns := Merged(b, a, InputsOf);
    if unknowns != [] { assert SaidBySide(unknowns[0], b, a, InputsOf) by { assert unknowns[0] in unknowns; } }
  }

  // ----- from one dimension to the whole report -----

  /** The component of one dimension of two states. */
  ghost predicate PricesDimension(c: CostComponent, key: ResourceKey, before: Estimates, after: Estimates) {
    (c.dimension in before || c.dimension in after) && SpeaksOfSides(c, key, c.dimension, Lookup1(before, c.dimension), Lookup1(after, c.dimension))
  }

  lemma PairedSpeak(key: ResourceKey, before: Estimates, after: Estimates)
    ensures forall c :: c in Paired(key, before, after) ==> PricesDimension(c, key, before, after)
    ensures forall d :: d in before || d in after ==> exists c :: c in Paired(key, before, after) && c.dimension == d
  {
    hide SpeaksOfSides, BuildEach, Arranged, BuildComponent;
    var ds := Arranged(before.Keys + after.Keys);
    ArrangedMembers(before.Keys + after.Keys);
    var cs := Paired(key, before, after);
    forall i | 0 <= i < |ds|
      ensures PricesDimension(cs[i], key, before, after) && cs[i].dimension == ds[i] && cs[i] in cs
    {
      assert ds[i] in before.Keys + after.Keys;
      BuiltComponentSpeaks(key, ds[i], Lookup1(before, ds[i]), Lookup1(after, ds[i]));
      HasDimension(cs[i], key, ds[i], Lookup1(before, ds[i]), Lookup1(after, ds[i]));
    }
    forall d | d in before || d in after
      ensures exists c :: c in cs && c.dimension == d
    {
      assert d in ds;
      var i :| 0 <= i < |ds| && ds[i] == d;
    }
  }

  lemma HasDimension(c: CostComponent, key: ResourceKey, d: string, b: Priced, a: Priced)
    requires SpeaksOfSides(c, key, d, b, a)
    ensures c.dimension == d
  {
    hide SpeaksKnown, SpeaksUnknown;
  }

  lemma {:induction false} MatchComponentsSpeak(ms: seq<Match>, estimator: Estimator)
    ensures forall c :: c in MatchComponents(ms, estimator) ==>
              exists m :: m in ms && PricesDimension(c, m.after.key, PricesOf(m.before, estimator), PricesOf(m.after, estimator))
    ensures forall m, d :: m in ms && (d in PricesOf(m.before, estimator) || d in PricesOf(m.after, estimator)) ==>
              exists c :: c in MatchComponents(ms, estimator) && c.dimension == d
  {
    hide PricesDimension, Paired, PricesOf;
    if ms != [] {
      PairedSpeak(ms[0].after.key, PricesOf(ms[0].before, estimator), PricesOf(ms[0].after, estimator));
      MatchComponentsSpeak(ms[1..], estimator);
      assert ms == [ms[0]] + ms[1..];
    }
  }

  lemma {:induction false} SingleComponentsSpeak(rs: seq<Resource>, estimator: Estimator)
    ensures forall c :: c in RemovedComponents(rs, estimator) ==> exists x :: x in rs && PricesDimension(c, x.key, PricesOf(x, estimator), map[])
    ensures forall c :: c in AddedComponents(rs, estimator) ==> exists x :: x in rs && PricesDimension(c, x.key, map[], PricesOf(x, estimator))
  {
    hide PricesDimension, Paired, PricesOf;
    if rs != [] {
      PairedSpeak(rs[0].key, PricesOf(rs[0], estimator), map[]);
      PairedSpeak(rs[0].key, map[], PricesOf(rs[0], estimator));
      SingleComponentsSpeak(rs[1..], estimator);
      assert rs == [rs[0]] + rs[1..];
    }
  }

  /** Every component of a report prices one dimension of a matched pair, of a removed resource
      against nothing, or of nothing against an added one. */
  lemma EveryComponentSpeaks(report: CostReport, pairing: MatchResult, estimator: Estimator, hours: int, c: CostComponent)
    requires IsEstimate(report, pairing, estimator, hours) && c in report.components
    ensures || (exists m :: m in pairing.matches && PricesDimension(c, m.after.key, PricesOf(m.before, estimator), PricesOf(m.after, estimator)))
            || (exists x :: x in pairing.removed && PricesDimension(c, x.key, PricesOf(x, estimator), map[]))
            || (exists x :: x in pairing.added && PricesDimension(c, x.key, map[], PricesOf(x, estimator)))
  {
    hide SortBy, MatchComponents, RemovedComponents, AddedComponents, PricesDimension, PricesOf, TotalsOf;
    SortKeepsItems(AllComponents(pairing, estimator), IdAtMost);
    assert c in multiset(report.components) && c in multiset(AllComponents(pairing, estimator));
    MatchComponentsSpeak(pairing.matches, estimator);
    SingleComponentsSpeak(pairing.removed, estimator);
    SingleComponentsSpeak(pairing.added, estimator);
    var ms, rs, xs := MatchComponents(pairing.matches, estimator), RemovedComponents(pairing.removed, estimator), AddedComponents(pairing.added, estimator);
    assert c in ms + rs + xs;
    assert c in ms || c in rs || c in xs;
  }

  /** The components are listed by identifier. */
  lemma ComponentsAreListedById(report: CostReport, pairing: MatchResult, estimator: Estimator, hours: int, i: nat, j: nat)
    requires IsEstimate(report, pairing, estimator, hours) && i < j < |report.components|
    ensures TextAtMost(report.components[i].id, report.components[j].id)
  {
    hide SortBy, AllComponents, TotalsOf, TextAtMost;
    TextRanks();
    assert Ranks(IdAtMost);
    SortSorts(AllComponents(pairing, estimator), IdAtMost);
    assert IdAtMost(report.components[i], report.components[j]);
  }

  lemma OneEstimateMore(es: seq<DimensionEstimate>, d: string)
    requires es != []
    ensures var n := |es| - 1;
            Lookup1(ByDimension(es), d) == if d == es[n].dimension then Some(es[n]) else Lookup1(ByDimension(es[..n]), d)
  {
  }

  /** Of several estimates for one dimension of a resource the last one counts. */
  lemma {:induction false} LastEstimateCounts(front: seq<DimensionEstimate>, e: DimensionEstimate, back: seq<DimensionEstimate>)
    requires forall x :: x in back ==> x.dimension != e.dimension
    ensures Lookup1(ByDimension(front + [e] + back), e.dimension) == Some(e)
    decreases |back|
  {
    hide ByDimension, Lookup1;
    var all := front + [e] + back;
    OneEstimateMore(all, e.dimension);
    if back == [] {
      assert all[|all| - 1] == e;
    } else {
      var m := |back| - 1;
      assert all[|all| - 1] == back[m] && back[m] in back;
      assert all[..|all| - 1] == front + [e] + back[..m];
      LastEstimateCounts(front, e, back[..m]);
    }
  }

  // ----- totals -----

  /** The totals of one known component, and of one unknown one. */
  lemma TotalsOfOneComponent(c: CostComponent, hours: int)
    requires ValidComponent(c)
    ensures var t := TotalsOf([c], hours);
            && t.oneTime == (if c.oneTime.Some? then c.oneTime.value else 0.0) && t.monthlyHours == hours
            && if c.estimateType.UnknownEstimate? then
                 t.unknownCount == 1 && t.current == 0.0 && t.proposed == 0.0 && t.fixedDelta == 0.0 && t.usageDelta == 0.0
               else
                 && t.unknownCount == 0 && t.current == c.current.value && t.proposed == c.proposed.value
                 && (if c.estimateType.Fixed? || c.estimateType.CommitmentBased?
                     then t.fixedDelta == c.delta.value && t.usageDelta == 0.0
                     else t.fixedDelta == 0.0 && t.usageDelta == c.delta.value)
  {
    assert [c][1..] == [];
    assert Total([], CurrentOf) == 0.0 && Total([], ProposedOf) == 0.0 && Total([], FixedOf) == 0.0 && Total([], UsageOf) == 0.0 && Total([], OneTimeOf) == 0.0;
    assert UnknownCountOf([]) == 0;
  }

  /** Totals of a whole are the totals of its parts, so they add up from single components. */
  lemma TotalsAddUp(xs: seq<CostComponent>, ys: seq<CostComponent>, hours: int)
    ensures var t, u, v := TotalsOf(xs, hours), TotalsOf(ys, hours), TotalsOf(xs + ys, hours);
            && v.current == t.current + u.current && v.proposed == t.proposed + u.proposed && v.delta == t.delta + u.delta
            && v.fixedDelta == t.fixedDelta + u.fixedDelta && v.usageDelta == t.usageDelta + u.usageDelta
            && v.oneTime == t.oneTime + u.oneTime && v.unknownCount == t.unknownCount + u.unknownCount
  {
    hide Total, UnknownCountOf;
    forall f: Measure
      ensures Total(xs + ys, f) == Total(xs, f) + Total(ys, f)
    {
      TotalOfConcat(xs, ys, f);
    }
    TallyOfConcat(xs, ys);
  }

  // ----- confidence -----

  /** So a report is no more certain than either side of any material component in it. */
  lemma ReportIsNoMoreCertain(report: CostReport, c: CostComponent, key: ResourceKey, b: Priced, a: Priced, r: Confidence)
    requires c in report.components && SpeaksOfSides(c, key, c.dimension, b, a) && IsMaterial(c) && IsConfidence(report.components, r)
    ensures b.Some? && b.value.monthly.Some? ==> ConfidenceRank(r) <= ConfidenceRank(b.value.confidence)
    ensures a.Some? && a.value.monthly.Some? ==> ConfidenceRank(r) <= ConfidenceRank(a.value.confidence)
    ensures (b.Some? && b.value.monthly.None?) || (a.Some? && a.value.monthly.None?) ==> r.UnknownConfidence?
  {
    hide IsMaterial, SaidBySide;
    assert ConfidenceRank(r) <= ConfidenceRank(c.confidence);
  }
}
