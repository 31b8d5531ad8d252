/** How the split into fixed and usage-based cost behaves when a change is reverted. */
module SplitLaws {
  import opened Templates
  import opened Ordering
  import opened Lattices
  import opened Resources
  import opened Matching
  import opened MatchingLaws
  import opened Diff
  import opened Estimation
  import opened EstimationLaws

  // ----- sums of a measure -----

  lemma {:induction false} TotalIsOrderFree(xs: seq<CostComponent>, ys: seq<CostComponent>, f: Measure)
    requires multiset(xs) == multiset(ys)
    ensures Total(xs, f) == Total(ys, f)
  {
    assert |multiset(xs)| == |xs| && |multiset(ys)| == |ys|;
    if xs != [] {
      var i := TakeOut(xs, ys);
      TotalIsOrderFree(xs[1..], ys[..i] + ys[i + 1..], f);
      TotalOfConcat(ys[..i], ys[i + 1..], f);
      TotalOfConcat(ys[..i], [ys[i]] + ys[i + 1..], f);
      TotalOfConcat([ys[i]], ys[i + 1..], f);
      TotalOfConcat([xs[0]], xs[1..], f);
      assert xs == [xs[0]] + xs[1..];
    }
  }

  // ----- what changes category -----

  /** Whether a side counts as fixed cost: one, zero, or nothing to count. */
  function FixedShare(e: DimensionEstimate): real {
    if Category(e.estimateType).FixedCost? then 1.0 else 0.0
  }

  /** The part of a dimension's delta that counts as fixed one way and not the other. */
  function Drift(before: Option<DimensionEstimate>, after: Option<DimensionEstimate>): real {
    if before.None? || after.None? || before.value.monthly.None? || after.value.monthly.None? then 0.0
    else (after.value.monthly.value - before.value.monthly.value) * (FixedShare(after.value) - FixedShare(before.value))
  }

  lemma ComponentDrifts(key: ResourceKey, key': ResourceKey, d: string, before: Option<DimensionEstimate>, after: Option<DimensionEstimate>)
    requires before.Some? || after.Some?
    requires (before.Some? ==> Honest(before.value)) && (after.Some? ==> Honest(after.value))
    ensures FixedOf(BuildComponent(key', d, after, before)) == Drift(before, after) - FixedOf(BuildComponent(key, d, before, after))
  {
    hide Merged, LowestConfidence, ComponentId;
  }

  ghost function DriftEach(ds: seq<string>, before: Estimates, after: Estimates): real {
    if ds == [] then 0.0 else Drift(Lookup1(before, ds[0]), Lookup1(after, ds[0])) + DriftEach(ds[1..], before, after)
  }

  /** All of it, over the dimensions the two states share. */
  ghost function DriftPaired(before: Estimates, after: Estimates): real {
    DriftEach(Arranged(before.Keys + after.Keys), before, after)
  }

  ghost function DriftOf(ms: seq<Match>, estimator: Estimator): real {
    if ms == [] then 0.0
    else DriftPaired(PricesOf(ms[0].before, estimator), PricesOf(ms[0].after, estimator)) + DriftOf(ms[1..], estimator)
  }

  // ----- reversal -----

  lemma {:induction false} EachDrifts(key: ResourceKey, key': ResourceKey, ds: seq<string>, before: Estimates, after: Estimates)
    requires forall d :: d in ds ==> d in before || d in after
    requires (forall d :: d in before ==> Honest(before[d])) && forall d :: d in after ==> Honest(after[d])
    ensures Total(BuildEach(key', ds, after, before), FixedOf) == DriftEach(ds, before, after) - Total(BuildEach(key, ds, before, after), FixedOf)
    decreases |ds|
  {
    hide BuildEach, BuildComponent, Honest, Drift, FixedOf;
    BuildEachUnfolds(key, ds, before, after);
    BuildEachUnfolds(key', ds, after, before);
    if ds != [] {
      var b, a := Lookup1(before, ds[0]), Lookup1(after, ds[0]);
      var c, c' := BuildComponent(key, ds[0], b, a), BuildComponent(key', ds[0], a, b);
      ComponentDrifts(key, key', ds[0], b, a);
      EachDrifts(key, key', ds[1..], before, after);
      TotalOfOne(c, FixedOf);
      TotalOfOne(c', FixedOf);
      TotalOfConcat([c], BuildEach(key, ds[1..], before, after), FixedOf);
      TotalOfConcat([c'], BuildEach(key', ds[1..], after, before), FixedOf);
    }
  }

  lemma PairedDrifts(key: ResourceKey, key': ResourceKey, before: Estimates, after: Estimates)
    requires (forall d :: d in before ==> Honest(before[d])) && forall d :: d in after ==> Honest(after[d])
    ensures Total(Paired(key', after, before), FixedOf) == DriftPaired(before, after) - Total(Paired(key, before, after), FixedOf)
  {
    hide BuildEach, Honest, FixedOf, DriftEach;
    ArrangedMembers(before.Keys + after.Keys);
    assert before.Keys + after.Keys == after.Keys + before.Keys;
    EachDrifts(key, key', Arranged(before.Keys + after.Keys), before, after);
  }

  lemma {:induction false} MatchesDrift(ms: seq<Match>, estimator: Estimator)
    requires HonestEstimator(estimator)
    ensures Total(MatchComponents(FlipAll(ms), estimator), FixedOf) == DriftOf(ms, estimator) - Total(MatchComponents(ms, estimator), FixedOf)
    decreases |ms|
  {
    hide Paired, FixedOf, Honest, DriftPaired;
    if ms == [] {
      assert FlipAll(ms) == [];
    } else {
      var m, rest := ms[0], ms[1..];
      var b, a := PricesOf(m.before, estimator), PricesOf(m.after, estimator);
      assert FlipAll(ms) == [Flip(m)] + FlipAll(rest);
      assert FlipAll(ms)[1..] == FlipAll(rest);
      MatchesDrift(rest, estimator);
      PairedDrifts(m.after.key, m.before.key, b, a);
      TotalOfConcat(Paired(m.after.key, b, a), MatchComponents(rest, estimator), FixedOf);
      TotalOfConcat(Paired(m.before.key, a, b), MatchComponents(FlipAll(rest), estimator), FixedOf);
    }
  }

  lemma {:induction false} NothingDrifts(ds: seq<string>, before: Estimates, after: Estimates)
    requires forall d :: d in ds && d in before && d in after ==> Drift(Some(before[d]), Some(after[d])) == 0.0
    ensures DriftEach(ds, before, after) == 0.0
  {
    hide FixedShare;
    if ds != [] { NothingDrifts(ds[1..], before, after); }
  }

  lemma {:induction false} SinglesDrift(rs: seq<Resource>, estimator: Estimator)
    requires HonestEstimator(estimator)
    ensures Total(AddedComponents(rs, estimator), FixedOf) == -Total(RemovedComponents(rs, estimator), FixedOf)
    decreases |rs|
  {
    hide Paired, FixedOf, Honest;
    if rs != [] {
      var prices, nothing: Estimates := PricesOf(rs[0], estimator), map[];
      SinglesDrift(rs[1..], estimator);
      PairedDrifts(rs[0].key, rs[0].key, prices, nothing);
      NothingDrifts(Arranged(prices.Keys + nothing.Keys), prices, nothing);
      TotalOfConcat(Paired(rs[0].key, prices, nothing), RemovedComponents(rs[1..], estimator), FixedOf);
      TotalOfConcat(Paired(rs[0].key, nothing, prices), AddedComponents(rs[1..], estimator), FixedOf);
    }
  }

  lemma {:induction false} MatchTotalConcat(xs: seq<Match>, ys: seq<Match>, estimator: Estimator, f: Measure)
    ensures Total(MatchComponents(xs + ys, estimator), f) == Total(MatchComponents(xs, estimator), f) + Total(MatchComponents(ys, estimator), f)
    decreases |xs|
  {
    hide Paired;
    if xs == [] {
      assert xs + ys == ys;
    } else {
      assert (xs + ys)[1..] == xs[1..] + ys;
      MatchTotalConcat(xs[1..], ys, estimator, f);
      var first := Paired(xs[0].after.key, PricesOf(xs[0].before, estimator), PricesOf(xs[0].after, estimator));
      TotalOfConcat(first, MatchComponents(xs[1..], estimator), f);
      TotalOfConcat(first, MatchComponents(xs[1..] + ys, estimator), f);
    }
  }

  lemma {:induction false} MatchTotalIsOrderFree(xs: seq<Match>, ys: seq<Match>, estimator: Estimator, f: Measure)
    requires multiset(xs) == multiset(ys)
    ensures Total(MatchComponents(xs, estimator), f) == Total(MatchComponents(ys, estimator), f)
    decreases |xs|
  {
    hide MatchComponents, Total;
    assert |multiset(xs)| == |xs| && |multiset(ys)| == |ys|;
    if xs != [] {
      var i := TakeOut(xs, ys);
      MatchTotalIsOrderFree(xs[1..], ys[..i] + ys[i + 1..], estimator, f);
      MatchTotalConcat(ys[..i], ys[i + 1..], estimator, f);
      MatchTotalConcat(ys[..i], [ys[i]] + ys[i + 1..], estimator, f);
      MatchTotalConcat([ys[i]], ys[i + 1..], estimator, f);
      MatchTotalConcat([xs[0]], xs[1..], estimator, f);
      assert xs == [xs[0]] + xs[1..];
    }
  }

  lemma FixedOfReport(report: CostReport, pairing: MatchResult, estimator: Estimator, hours: int)
    requires IsEstimate(report, pairing, estimator, hours)
    ensures report.totals.fixedDelta == Total(MatchComponents(pairing.matches, estimator), FixedOf)
                                        + Total(RemovedComponents(pairing.removed, estimator), FixedOf)
                                        + Total(AddedComponents(pairing.added, estimator), FixedOf)
  {
    hide MatchComponents, RemovedComponents, AddedComponents, SortBy, Total, FixedOf;
    var a, b, c := MatchComponents(pairing.matches, estimator), RemovedComponents(pairing.removed, estimator), AddedComponents(pairing.added, estimator);
    SortKeepsItems(a + b + c, IdAtMost);
    TotalIsOrderFree(report.components, a + b + c, FixedOf);
    TotalOfConcat(a, b, FixedOf);
    TotalOfConcat(a + b, c, FixedOf);
  }

  /** Reverting a change negates its fixed and its usage-based part up to the drift, so it negates
      both exactly when the drift is nothing. */
  lemma RevertingNegatesTheSplitExactly(baseline: seq<Resource>, proposed: seq<Resource>, estimator: Estimator, hours: int,
                                        fr: MatchResult, forward: CostReport, br: MatchResult, backward: CostReport)
    requires HonestEstimator(estimator) && hours > 0 && IsMatching(baseline, proposed, fr) && IsMatching(proposed, baseline, br)
    requires IsEstimate(forward, fr, estimator, hours) && IsEstimate(backward, br, estimator, hours)
    ensures backward.totals.fixedDelta == DriftOf(fr.matches, estimator) - forward.totals.fixedDelta
    ensures backward.totals.usageDelta == -DriftOf(fr.matches, estimator) - forward.totals.usageDelta
    ensures backward.totals.fixedDelta == -forward.totals.fixedDelta && backward.totals.usageDelta == -forward.totals.usageDelta
            <==> DriftOf(fr.matches, estimator) == 0.0
  {
    hide MatchComponents, RemovedComponents, AddedComponents, SortBy, HonestEstimator, IsMatching, IsEstimate, DriftOf, Total, FixedOf, ValidComponent, AddsUp;
    MatchingIsSwapSymmetric(baseline, proposed, fr, br);
    FixedOfReport(forward, fr, estimator, hours);
    FixedOfReport(backward, br, estimator, hours);
    MatchTotalIsOrderFree(br.matches, FlipAll(fr.matches), estimator, FixedOf);
    MatchesDrift(fr.matches, estimator);
    SinglesDrift(fr.removed, estimator);
    SinglesDrift(fr.added, estimator);
    RevertingNegatesTheEstimate(baseline, proposed, estimator, hours, fr, forward, br, backward);
    EveryReportReconciles(forward, fr, estimator, hours);
    EveryReportReconciles(backward, br, estimator, hours);
  }

  /** No matched pair prices a dimension as fixed on one side and as usage-based on the other. */
  ghost predicate CategoriesKept(ms: seq<Match>, estimator: Estimator) {
    forall m, d :: m in ms && d in PricesOf(m.before, estimator) && d in PricesOf(m.after, estimator) ==>
      Category(PricesOf(m.before, estimator)[d].estimateType) == Category(PricesOf(m.after, estimator)[d].estimateType)
  }

  /** Where shared dimensions keep their category there is no drift. */
  lemma {:induction false} KeptCategoriesDoNotDrift(ms: seq<Match>, estimator: Estimator)
    requires CategoriesKept(ms, estimator)
    ensures DriftOf(ms, estimator) == 0.0
  {
    hide PricesOf, DriftEach;
    if ms != [] {
      var b, a := PricesOf(ms[0].before, estimator), PricesOf(ms[0].after, estimator);
      forall d | d in b && d in a
        ensures Drift(Some(b[d]), Some(a[d])) == 0.0
      {
        assert ms[0] in ms;
        assert Category(b[d].estimateType) == Category(a[d].estimateType);
      }
      NothingDrifts(Arranged(b.Keys + a.Keys), b, a);
      KeptCategoriesDoNotDrift(ms[1..], estimator);
    }
  }

  /** One shared dimension that turns from fixed into usage-based is not negated: from 10 to 30 its
      fixed part is 0 forwards and -20 backwards. */
  lemma TurnedDimensionIsNotNegated(key: ResourceKey, before: DimensionEstimate, after: DimensionEstimate)
    requires Honest(before) && Honest(after) && before.dimension == after.dimension
    requires before.estimateType.Fixed? && before.monthly == Some(10.0) && after.estimateType.UsageBased? && after.monthly == Some(30.0)
    ensures FixedOf(BuildComponent(key, after.dimension, Some(before), Some(after))) == 0.0
    ensures FixedOf(BuildComponent(key, after.dimension, Some(after), Some(before))) == -20.0
  {
    hide Merged, LowestConfidence, ComponentId;
  }
}
