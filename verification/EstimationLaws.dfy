/** Every report adds up, reads the same backwards, and keeps unknowns out of its sums. */
module EstimationLaws {
  import opened Templates
  import opened Ordering
  import opened Resources
  import opened Matching
  import opened MatchingLaws
  import opened Diff
  import opened Estimation

  // ----- validity -----

  lemma MergedIsNonEmpty(before: Option<DimensionEstimate>, after: Option<DimensionEstimate>, f: DimensionEstimate -> seq<string>)
    requires (before.Some? && f(before.value) != []) || (after.Some? && f(after.value) != [])
    ensures Merged(before, after, f) != []
  {
    AppendNewMembers([], Side(before, f));
    AppendNewMembers(AppendNew([], Side(before, f)), Side(after, f));
    if before.Some? && f(before.value) != [] {
      assert f(before.value)[0] in Merged(before, after, f);
    } else {
      assert f(after.value)[0] in Merged(before, after, f);
    }
  }

  /** A merged explanation mentions exactly what either side mentions, each thing once. */
  lemma MergedMembers(before: Option<DimensionEstimate>, after: Option<DimensionEstimate>, f: DimensionEstimate -> seq<string>)
    ensures forall x :: x in Merged(before, after, f) <==>
              (before.Some? && x in f(before.value)) || (after.Some? && x in f(after.value))
    ensures Distinct(Merged(before, after, f))
  {
    AppendNewMembers([], Side(before, f));
    AppendNewMembers(AppendNew([], Side(before, f)), Side(after, f));
  }

  /** Honest estimates make valid components. */
  lemma BuiltComponentIsValid(key: ResourceKey, dimension: string, before: Option<DimensionEstimate>, after: Option<DimensionEstimate>)
    requires before.Some? || after.Some?
    requires (before.Some? ==> Honest(before.value)) && (after.Some? ==> Honest(after.value))
    ensures ValidComponent(BuildComponent(key, dimension, before, after))
  {
    if SideCost(before).Some? && SideCost(after).Some? {
      MergedIsNonEmpty(before, after, ReasonsOf);
    }
  }

  lemma PairedIsValid(key: ResourceKey, before: Estimates, after: Estimates)
    requires forall d :: d in before ==> Honest(before[d])
    requires forall d :: d in after ==> Honest(after[d])
    ensures forall c :: c in Paired(key, before, after) ==> ValidComponent(c)
  {
    hide BuildComponent, ValidComponent, Honest;
    ArrangedMembers(before.Keys + after.Keys);
    var dimensions := Arranged(before.Keys + after.Keys);
    forall i | 0 <= i < |dimensions|
      ensures dimensions[i] in before || dimensions[i] in after
      ensures ValidComponent(BuildComponent(key, dimensions[i], Lookup1(before, dimensions[i]), Lookup1(after, dimensions[i])))
    {
      assert dimensions[i] in before.Keys + after.Keys;
      BuiltComponentIsValid(key, dimensions[i], Lookup1(before, dimensions[i]), Lookup1(after, dimensions[i]));
    }
  }

  lemma {:induction false} MatchComponentsAreValid(ms: seq<Match>, estimator: Estimator)
    requires HonestEstimator(estimator)
    ensures forall c :: c in MatchComponents(ms, estimator) ==> ValidComponent(c)
  {
    hide Paired, ValidComponent, Honest;
    if ms != [] {
      MatchComponentsAreValid(ms[1..], estimator);
      PairedIsValid(ms[0].after.key, PricesOf(ms[0].before, estimator), PricesOf(ms[0].after, estimator));
    }
  }

  lemma {:induction false} RemovedComponentsAreValid(rs: seq<Resource>, estimator: Estimator)
    requires HonestEstimator(estimator)
    ensures forall c :: c in RemovedComponents(rs, estimator) ==> ValidComponent(c)
  {
    hide Paired, ValidComponent, Honest;
    if rs != [] {
      RemovedComponentsAreValid(rs[1..], estimator);
      PairedIsValid(rs[0].key, PricesOf(rs[0], estimator), map[]);
    }
  }

  lemma {:induction false} AddedComponentsAreValid(rs: seq<Resource>, estimator: Estimator)
    requires HonestEstimator(estimator)
    ensures forall c :: c in AddedComponents(rs, estimator) ==> ValidComponent(c)
  {
    hide Paired, ValidComponent, Honest;
    if rs != [] {
      AddedComponentsAreValid(rs[1..], estimator);
      PairedIsValid(rs[0].key, map[], PricesOf(rs[0], estimator));
    }
  }

  lemma {:induction false} ValidTotals(cs: seq<CostComponent>)
    requires forall c :: c in cs ==> ValidComponent(c)
    ensures Total(cs, ProposedOf) - Total(cs, CurrentOf) == Total(cs, DeltaOf) == Total(cs, FixedOf) + Total(cs, UsageOf)
  {
    if cs != [] {
      assert cs[0] in cs;
      ValidTotals(cs[1..]);
    }
  }

  /** Every report built from an honest estimator has valid components, its totals reconcile
      and agree with the components, and it passes every later check but, possibly, the one on
      repeated identifiers. */
  lemma EveryReportReconciles(report: CostReport, pairing: MatchResult, estimator: Estimator, hours: int)
    requires HonestEstimator(estimator) && hours > 0 && IsEstimate(report, pairing, estimator, hours)
    ensures forall c :: c in report.components ==> ValidComponent(c)
    ensures Reconciles(report.totals)
    ensures report.totals.delta == Total(report.components, DeltaOf)
    ensures AddsUp(report) <==> Distinct(Ids(report.components))
  {
    hide MatchComponents, RemovedComponents, AddedComponents, SortBy, Distinct, HonestEstimator;
    MatchComponentsAreValid(pairing.matches, estimator);
    RemovedComponentsAreValid(pairing.removed, estimator);
    AddedComponentsAreValid(pairing.added, estimator);
    SortKeepsItems(AllComponents(pairing, estimator), IdAtMost);
    forall c | c in report.components
      ensures ValidComponent(c)
    {
      assert c in multiset(report.components) && c in multiset(AllComponents(pairing, estimator));
    }
    ValidTotals(report.components);
    forall i | 0 <= i < |report.components|
      ensures Explained(report.components[i])
    {
      assert report.components[i] in report.components;
    }
  }

  // ----- unknowns -----

  function KnownOnly(cs: seq<CostComponent>): seq<CostComponent> {
    if cs == [] then [] else (if IsUnknown(cs[0]) then [] else [cs[0]]) + KnownOnly(cs[1..])
  }

  /** Unknown components change no monthly total; they are counted instead. */
  lemma {:induction false} UnknownsStayOutOfTheSums(cs: seq<CostComponent>, hours: int)
    ensures var t, k := TotalsOf(cs, hours), TotalsOf(KnownOnly(cs), hours);
            && t.current == k.current && t.proposed == k.proposed && t.delta == k.delta
            && t.fixedDelta == k.fixedDelta && t.usageDelta == k.usageDelta
            && t.unknownCount == |cs| - |KnownOnly(cs)| && k.unknownCount == 0
  {
    if cs != [] {
      UnknownsStayOutOfTheSums(cs[1..], hours);
      var rest := KnownOnly(cs[1..]);
      if !IsUnknown(cs[0]) {
        assert KnownOnly(cs) == [cs[0]] + rest;
        assert ([cs[0]] + rest)[1..] == rest;
      } else {
        assert KnownOnly(cs) == rest;
      }
    }
  }

  // ----- sums of a measure -----

  lemma {:induction false} TotalOfConcat(xs: seq<CostComponent>, ys: seq<CostComponent>, f: Measure)
    ensures Total(xs + ys, f) == Total(xs, f) + Total(ys, f)
  {
    if xs == [] {
      assert xs + ys == ys;
    } else {
      assert (xs + ys)[1..] == xs[1..] + ys;
      TotalOfConcat(xs[1..], ys, f);
    }
  }

  lemma TotalOfOne(c: CostComponent, f: Measure)
    ensures Total([c], f) == f(c)
  {
    assert [c][1..] == [];
  }

  // ----- reversal -----

  datatype Tally = Tally(current: real, proposed: real, unknown: int)

  function Plus(x: Tally, y: Tally): Tally {
    Tally(x.current + y.current, x.proposed + y.proposed, x.unknown + y.unknown)
  }

  function Exchanged(t: Tally): Tally {
    Tally(t.proposed, t.current, t.unknown)
  }

  function TallyOf(cs: seq<CostComponent>): Tally {
    Tally(Total(cs, CurrentOf), Total(cs, ProposedOf), UnknownCountOf(cs))
  }

  lemma {:induction false} TallyOfConcat(xs: seq<CostComponent>, ys: seq<CostComponent>)
    ensures TallyOf(xs + ys) == Plus(TallyOf(xs), TallyOf(ys))
  {
    if xs == [] {
      assert xs + ys == ys;
    } else {
      assert (xs + ys)[1..] == xs[1..] + ys;
      TallyOfConcat(xs[1..], ys);
    }
  }

  lemma {:induction false} TallyIsOrderFree(xs: seq<CostComponent>, ys: seq<CostComponent>)
    requires multiset(xs) == multiset(ys)
    ensures TallyOf(xs) == TallyOf(ys)
  {
    assert |multiset(xs)| == |xs| && |multiset(ys)| == |ys|;
    if xs != [] {
      var i := TakeOut(xs, ys);
      TallyIsOrderFree(xs[1..], ys[..i] + ys[i + 1..]);
      TallyOfConcat(ys[..i], ys[i + 1..]);
      TallyOfConcat(ys[..i], [ys[i]] + ys[i + 1..]);
      TallyOfConcat([ys[i]], ys[i + 1..]);
      TallyOfConcat([xs[0]], xs[1..]);
      assert xs == [xs[0]] + xs[1..];
    }
  }

  /** One component seen from the other side: the figures change places. */
  lemma ComponentReverses(key: ResourceKey, key': ResourceKey, d: string, before: Option<DimensionEstimate>, after: Option<DimensionEstimate>)
    requires before.Some? || after.Some?
    requires (before.Some? ==> Honest(before.value)) && (after.Some? ==> Honest(after.value))
    ensures TallyOf([BuildComponent(key', d, after, before)]) == Exchanged(TallyOf([BuildComponent(key, d, before, after)]))
  {
    hide Merged, LowestConfidence, TallyOf;
    var c, c' := BuildComponent(key, d, before, after), BuildComponent(key', d, after, before);
    assert IsUnknown(c) == IsUnknown(c');
    assert c.current == c'.proposed && c.proposed == c'.current;
    TallyOfOne(c);
    TallyOfOne(c');
  }

  lemma TallyOfOne(c: CostComponent)
    ensures TallyOf([c]) == Tally(CurrentOf(c), ProposedOf(c), if IsUnknown(c) then 1 else 0)
  {
    assert Total([c], CurrentOf) == CurrentOf(c) + Total([], CurrentOf);
    assert Total([c], ProposedOf) == ProposedOf(c) + Total([], ProposedOf);
    assert UnknownCountOf([c]) == (if IsUnknown(c) then 1 else 0) + UnknownCountOf([]);
  }

  lemma {:induction false} BuildEachReverses(key: ResourceKey, key': ResourceKey, ds: seq<string>, before: Estimates, after: Estimates)
    requires forall d :: d in ds ==> d in before || d in after
    requires (forall d :: d in before ==> Honest(before[d])) && forall d :: d in after ==> Honest(after[d])
    ensures TallyOf(BuildEach(key', ds, after, before)) == Exchanged(TallyOf(BuildEach(key, ds, before, after)))
    decreases |ds|
  {
    hide BuildEach, BuildComponent, Honest, TallyOf;
    BuildEachUnfolds(key, ds, before, after);
    BuildEachUnfolds(key', ds, after, before);
    if ds == [] {
      NoTally();
    } else {
      var b, a := Lookup1(before, ds[0]), Lookup1(after, ds[0]);
      var c, c' := BuildComponent(key, ds[0], b, a), BuildComponent(key', ds[0], a, b);
      ComponentReverses(key, key', ds[0], b, a);
      BuildEachReverses(key, key', ds[1..], before, after);
      TallyOfConcat([c], BuildEach(key, ds[1..], before, after));
      TallyOfConcat([c'], BuildEach(key', ds[1..], after, before));
    }
  }

  lemma BuildEachUnfolds(key: ResourceKey, ds: seq<string>, before: Estimates, after: Estimates)
    requires forall d :: d in ds ==> d in before || d in after
    ensures BuildEach(key, ds, before, after)
            == if ds == [] then []
               else [BuildComponent(key, ds[0], Lookup1(before, ds[0]), Lookup1(after, ds[0]))] + BuildEach(key, ds[1..], before, after)
  {
    hide BuildComponent;
  }

  lemma NoTally()
    ensures TallyOf([]) == Tally(0.0, 0.0, 0)
  {
  }

  lemma PairedReverses(key: ResourceKey, key': ResourceKey, before: Estimates, after: Estimates)
    requires (forall d :: d in before ==> Honest(before[d])) && forall d :: d in after ==> Honest(after[d])
    ensures TallyOf(Paired(key', after, before)) == Exchanged(TallyOf(Paired(key, before, after)))
  {
    hide BuildEach, TallyOf, Honest;
    ArrangedMembers(before.Keys + after.Keys);
    assert before.Keys + after.Keys == after.Keys + before.Keys;
    BuildEachReverses(key, key', Arranged(before.Keys + after.Keys), before, after);
  }

  lemma {:induction false} MatchesReverse(ms: seq<Match>, estimator: Estimator)
    requires HonestEstimator(estimator)
    ensures TallyOf(MatchComponents(FlipAll(ms), estimator)) == Exchanged(TallyOf(MatchComponents(ms, estimator)))
    decreases |ms|
  {
    hide Paired, TallyOf, Honest;
    if ms == [] {
      assert FlipAll(ms) == [];
      NoTally();
    } else {
      var m, rest := ms[0], ms[1..];
      var b, a := PricesOf(m.before, estimator), PricesOf(m.after, estimator);
      assert FlipAll(ms) == [Flip(m)] + FlipAll(rest);
      assert FlipAll(ms)[1..] == FlipAll(rest);
      MatchesReverse(rest, estimator);
      PairedReverses(m.after.key, m.before.key, b, a);
      TallyOfConcat(Paired(m.after.key, b, a), MatchComponents(rest, estimator));
      TallyOfConcat(Paired(m.before.key, a, b), MatchComponents(FlipAll(rest), estimator));
    }
  }

  lemma {:induction false} SinglesReverse(rs: seq<Resource>, estimator: Estimator)
    requires HonestEstimator(estimator)
    ensures TallyOf(AddedComponents(rs, estimator)) == Exchanged(TallyOf(RemovedComponents(rs, estimator)))
    decreases |rs|
  {
    hide Paired, TallyOf, Honest;
    if rs == [] {
      NoTally();
    } else {
      var prices, nothing: Estimates := PricesOf(rs[0], estimator), map[];
      SinglesReverse(rs[1..], estimator);
      PairedReverses(rs[0].key, rs[0].key, prices, nothing);
      TallyOfConcat(Paired(rs[0].key, prices, nothing), RemovedComponents(rs[1..], estimator));
      TallyOfConcat(Paired(rs[0].key, nothing, prices), AddedComponents(rs[1..], estimator));
    }
  }

  lemma {:induction false} MatchTallyConcat(xs: seq<Match>, ys: seq<Match>, estimator: Estimator)
    ensures TallyOf(MatchComponents(xs + ys, estimator))
            == Plus(TallyOf(MatchComponents(xs, estimator)), TallyOf(MatchComponents(ys, estimator)))
    decreases |xs|
  {
    hide Paired, TallyOf;
    if xs == [] {
      assert xs + ys == ys;
      NoTally();
    } else {
      assert (xs + ys)[1..] == xs[1..] + ys;
      MatchTallyConcat(xs[1..], ys, estimator);
      var first := Paired(xs[0].after.key, PricesOf(xs[0].before, estimator), PricesOf(xs[0].after, estimator));
      TallyOfConcat(first, MatchComponents(xs[1..], estimator));
      TallyOfConcat(first, MatchComponents(xs[1..] + ys, estimator));
    }
  }

  lemma {:induction false} MatchTallyIsOrderFree(xs: seq<Match>, ys: seq<Match>, estimator: Estimator)
    requires multiset(xs) == multiset(ys)
    ensures TallyOf(MatchComponents(xs, estimator)) == TallyOf(MatchComponents(ys, estimator))
    decreases |xs|
  {
    hide MatchComponents, TallyOf;
    assert |multiset(xs)| == |xs| && |multiset(ys)| == |ys|;
    if xs != [] {
      var i := TakeOut(xs, ys);
      MatchTallyIsOrderFree(xs[1..], ys[..i] + ys[i + 1..], estimator);
      MatchTallyConcat(ys[..i], ys[i + 1..], estimator);
      MatchTallyConcat(ys[..i], [ys[i]] + ys[i + 1..], estimator);
      MatchTallyConcat([ys[i]], ys[i + 1..], estimator);
      MatchTallyConcat([xs[0]], xs[1..], estimator);
      assert xs == [xs[0]] + xs[1..];
    }
  }

  lemma TallyOfReport(report: CostReport, pairing: MatchResult, estimator: Estimator, hours: int)
    requires IsEstimate(report, pairing, estimator, hours)
    ensures var t := Plus(Plus(TallyOf(MatchComponents(pairing.matches, estimator)), TallyOf(RemovedComponents(pairing.removed, estimator))),
                          TallyOf(AddedComponents(pairing.added, estimator)));
            report.totals.current == t.current && report.totals.proposed == t.proposed && report.totals.unknownCount == t.unknown
  {
    hide MatchComponents, RemovedComponents, AddedComponents, SortBy, Total, UnknownCountOf;
    var a, b, c := MatchComponents(pairing.matches, estimator), RemovedComponents(pairing.removed, estimator), AddedComponents(pairing.added, estimator);
    SortKeepsItems(a + b + c, IdAtMost);
    TallyIsOrderFree(report.components, a + b + c);
    TallyOfConcat(a, b);
    TallyOfConcat(a + b, c);
  }

  /** Reverting a change negates its estimate: the two totals change places, the delta changes
      sign, and as many components stay unknown. */
  lemma RevertingNegatesTheEstimate(baseline: seq<Resource>, proposed: seq<Resource>, estimator: Estimator, hours: int,
                                    fr: MatchResult, forward: CostReport, br: MatchResult, backward: CostReport)
    requires HonestEstimator(estimator) && IsMatching(baseline, proposed, fr) && IsMatching(proposed, baseline, br)
    requires IsEstimate(forward, fr, estimator, hours) && IsEstimate(backward, br, estimator, hours)
    ensures backward.totals.current == forward.totals.proposed
    ensures backward.totals.proposed == forward.totals.current
    ensures backward.totals.delta == -forward.totals.delta
    ensures backward.totals.unknownCount == forward.totals.unknownCount
  {
    hide MatchComponents, RemovedComponents, AddedComponents, TallyOf, SortBy, HonestEstimator;
    MatchingIsSwapSymmetric(baseline, proposed, fr, br);
    TallyOfReport(forward, fr, estimator, hours);
    TallyOfReport(backward, br, estimator, hours);
    MatchTallyIsOrderFree(br.matches, FlipAll(fr.matches), estimator);
    MatchesReverse(fr.matches, estimator);
    SinglesReverse(fr.removed, estimator);
    SinglesReverse(fr.added, estimator);
  }
}
