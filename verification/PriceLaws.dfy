/** When everything can be priced, the totals are the prices of the two graphs. */
module PriceLaws {
  import opened Ordering
  import opened Resources
  import opened Matching
  import opened MatchingLaws
  import opened Diff
  import opened Estimation
  import opened EstimationLaws
  import opened Identifiers

  /** What one dimension adds to a price; a dimension without an estimate adds nothing. */
  function AmountAt(m: Estimates, d: string): real {
    if d in m then Estimation.Known(m[d].monthly) else 0.0
  }

  function AmountOver(ds: seq<string>, m: Estimates): real {
    if ds == [] then 0.0 else AmountAt(m, ds[0]) + AmountOver(ds[1..], m)
  }

  /** The monthly price of a resource. */
  ghost function PriceOf(m: Estimates): real {
    AmountOver(Arranged(m.Keys), m)
  }

  ghost function PriceOfGraph(rs: seq<Resource>, estimator: Estimator): real {
    if rs == [] then 0.0 else PriceOf(PricesOf(rs[0], estimator)) + PriceOfGraph(rs[1..], estimator)
  }

  ghost predicate AllPriced(m: Estimates) {
    forall d :: d in m ==> m[d].monthly.Some? && !m[d].estimateType.UnknownEstimate?
  }

  /** The estimator knows the cost of every dimension of every resource. */
  ghost predicate PricesEverything(rs: seq<Resource>, estimator: Estimator) {
    forall r :: r in rs ==> AllPriced(PricesOf(r, estimator))
  }

  // ----- a sum over more dimensions than there are -----

  lemma {:induction false} AmountOfConcat(xs: seq<string>, ys: seq<string>, m: Estimates)
    ensures AmountOver(xs + ys, m) == AmountOver(xs, m) + AmountOver(ys, m)
    decreases |xs|
  {
    if xs == [] {
      assert xs + ys == ys;
    } else {
      assert (xs + ys)[1..] == xs[1..] + ys;
      AmountOfConcat(xs[1..], ys, m);
    }
  }

  lemma {:induction false} AmountIsOrderFree(xs: seq<string>, ys: seq<string>, m: Estimates)
    requires multiset(xs) == multiset(ys)
    ensures AmountOver(xs, m) == AmountOver(ys, m)
    decreases |xs|
  {
    assert |multiset(xs)| == |xs| && |multiset(ys)| == |ys|;
    if xs != [] {
      var i := TakeOut(xs, ys);
      AmountIsOrderFree(xs[1..], ys[..i] + ys[i + 1..], m);
      AmountOfConcat(ys[..i], ys[i + 1..], m);
      AmountOfConcat(ys[..i], [ys[i]] + ys[i + 1..], m);
      assert ([ys[i]] + ys[i + 1..])[1..] == ys[i + 1..];
    }
  }

  lemma {:induction false} ExtraDimensionsAddNothing(s: set<string>, m: Estimates)
    requires m.Keys <= s
    ensures AmountOver(Arranged(s), m) == PriceOf(m)
    decreases |s|
  {
    hide Arranged, AmountOver;
    if d :| d in s && d !in m.Keys {
      var rest := s - {d};
      ExtraDimensionsAddNothing(rest, m);
      ArrangedMembers(s);
      ArrangedMembers(rest);
      assert multiset(Arranged(s)) == multiset([d] + Arranged(rest));
      AmountIsOrderFree(Arranged(s), [d] + Arranged(rest), m);
      OneMoreDimension(d, Arranged(rest), m);
    } else {
      assert s == m.Keys;
    }
  }

  lemma OneMoreDimension(d: string, ds: seq<string>, m: Estimates)
    ensures AmountOver([d] + ds, m) == AmountAt(m, d) + AmountOver(ds, m)
  {
    assert ([d] + ds)[1..] == ds;
  }

  // ----- the components of one resource -----

  lemma PricedComponent(key: ResourceKey, d: string, before: Estimates, after: Estimates)
    requires (d in before || d in after) && AllPriced(before) && AllPriced(after)
    ensures TallyOf([BuildComponent(key, d, Lookup1(before, d), Lookup1(after, d))]) == Tally(AmountAt(before, d), AmountAt(after, d), 0)
  {
    hide Merged, LowestConfidence, TallyOf;
    var c := BuildComponent(key, d, Lookup1(before, d), Lookup1(after, d));
    TallyOfOne(c);
  }

  lemma {:induction false} PricedComponents(key: ResourceKey, ds: seq<string>, before: Estimates, after: Estimates)
    requires (forall d :: d in ds ==> d in before || d in after) && AllPriced(before) && AllPriced(after)
    ensures TallyOf(BuildEach(key, ds, before, after)) == Tally(AmountOver(ds, before), AmountOver(ds, after), 0)
    decreases |ds|
  {
    hide BuildEach, BuildComponent, TallyOf, AllPriced, AmountAt;
    BuildEachUnfolds(key, ds, before, after);
    if ds == [] {
      NoTally();
    } else {
      assert ds[0] in ds;
      PricedComponent(key, ds[0], before, after);
      PricedComponents(key, ds[1..], before, after);
      TallyOfConcat([BuildComponent(key, ds[0], Lookup1(before, ds[0]), Lookup1(after, ds[0]))], BuildEach(key, ds[1..], before, after));
    }
  }

  lemma PricedPair(key: ResourceKey, before: Estimates, after: Estimates)
    requires AllPriced(before) && AllPriced(after)
    ensures TallyOf(Paired(key, before, after)) == Tally(PriceOf(before), PriceOf(after), 0)
  {
    hide BuildEach, TallyOf, AllPriced, Arranged, PriceOf;
    ArrangedMembers(before.Keys + after.Keys);
    PricedComponents(key, Arranged(before.Keys + after.Keys), before, after);
    ExtraDimensionsAddNothing(before.Keys + after.Keys, before);
    ExtraDimensionsAddNothing(before.Keys + after.Keys, after);
  }

  // ----- the components of a pairing -----

  function Befores(ms: seq<Match>): seq<Resource> {
    seq(|ms|, i requires 0 <= i < |ms| => ms[i].before)
  }

  function Afters(ms: seq<Match>): seq<Resource> {
    seq(|ms|, i requires 0 <= i < |ms| => ms[i].after)
  }

  lemma {:induction false} PricedMatches(ms: seq<Match>, estimator: Estimator)
    requires PricesEverything(Befores(ms), estimator) && PricesEverything(Afters(ms), estimator)
    ensures TallyOf(MatchComponents(ms, estimator)) == Tally(PriceOfGraph(Befores(ms), estimator), PriceOfGraph(Afters(ms), estimator), 0)
    decreases |ms|
  {
    hide Paired, TallyOf, AllPriced, PricesOf, PriceOf;
    if ms == [] {
      NoTally();
    } else {
      var b, a := PricesOf(ms[0].before, estimator), PricesOf(ms[0].after, estimator);
      assert Befores(ms)[1..] == Befores(ms[1..]) && Afters(ms)[1..] == Afters(ms[1..]);
      assert Befores(ms)[0] in Befores(ms) && Afters(ms)[0] in Afters(ms);
      PricedMatches(ms[1..], estimator);
      PricedPair(ms[0].after.key, b, a);
      TallyOfConcat(Paired(ms[0].after.key, b, a), MatchComponents(ms[1..], estimator));
    }
  }

  lemma NothingIsPriced()
    ensures AllPriced(map[]) && PriceOf(map[]) == 0.0
  {
    var nothing: Estimates := map[];
    assert Arranged(nothing.Keys) == [];
  }

  lemma {:induction false} PricedSingles(rs: seq<Resource>, estimator: Estimator)
    requires PricesEverything(rs, estimator)
    ensures TallyOf(RemovedComponents(rs, estimator)) == Tally(PriceOfGraph(rs, estimator), 0.0, 0)
    ensures TallyOf(AddedComponents(rs, estimator)) == Tally(0.0, PriceOfGraph(rs, estimator), 0)
    decreases |rs|
  {
    hide Paired, TallyOf, AllPriced, PricesOf, PriceOf;
    if rs == [] {
      NoTally();
    } else {
      var prices, nothing: Estimates := PricesOf(rs[0], estimator), map[];
      PricedSingles(rs[1..], estimator);
      NothingIsPriced();
      PricedPair(rs[0].key, prices, nothing);
      PricedPair(rs[0].key, nothing, prices);
      TallyOfConcat(Paired(rs[0].key, prices, nothing), RemovedComponents(rs[1..], estimator));
      TallyOfConcat(Paired(rs[0].key, nothing, prices), AddedComponents(rs[1..], estimator));
    }
  }

  // ----- a pairing only rearranges the graphs -----

  lemma {:induction false} PriceOfConcat(xs: seq<Resource>, ys: seq<Resource>, estimator: Estimator)
    ensures PriceOfGraph(xs + ys, estimator) == PriceOfGraph(xs, estimator) + PriceOfGraph(ys, estimator)
    decreases |xs|
  {
    hide PriceOf;
    if xs == [] {
      assert xs + ys == ys;
    } else {
      assert (xs + ys)[1..] == xs[1..] + ys;
      PriceOfConcat(xs[1..], ys, estimator);
    }
  }

  lemma {:induction false} PriceIsOrderFree(xs: seq<Resource>, ys: seq<Resource>, estimator: Estimator)
    requires multiset(xs) == multiset(ys)
    ensures PriceOfGraph(xs, estimator) == PriceOfGraph(ys, estimator)
    decreases |xs|
  {
    hide PriceOf;
    assert |multiset(xs)| == |xs| && |multiset(ys)| == |ys|;
    if xs != [] {
      var i := TakeOut(xs, ys);
      PriceIsOrderFree(xs[1..], ys[..i] + ys[i + 1..], estimator);
      PriceOfConcat(ys[..i], ys[i + 1..], estimator);
      PriceOfConcat(ys[..i], [ys[i]] + ys[i + 1..], estimator);
      assert ([ys[i]] + ys[i + 1..])[1..] == ys[i + 1..];
    }
  }

  ghost predicate BeforeOccurs(ms: seq<Match>, x: Resource) {
    exists m :: m in ms && m.before == x
  }

  lemma {:induction false} BeforeOccursOnce(ms: seq<Match>, x: Resource)
    requires OneToOne(ms)
    ensures multiset(Befores(ms))[x] == if BeforeOccurs(ms, x) then 1 else 0
    decreases |ms|
  {
    hide OneToOne, BeforeOccurs;
    if ms == [] {
      assert !BeforeOccurs(ms, x) by { NothingBefore(x); }
    } else {
      RestIsOneToOne(ms);
      BeforeOccursOnce(ms[1..], x);
      assert Befores(ms) == [ms[0].before] + Befores(ms[1..]);
      FirstBefore(ms, x);
    }
  }

  lemma NothingBefore(x: Resource)
    ensures !BeforeOccurs([], x)
  {
  }

  lemma FirstBefore(ms: seq<Match>, x: Resource)
    requires ms != [] && ms[0].before.key !in BeforeKeys(ms[1..])
    ensures BeforeOccurs(ms, x) <==> ms[0].before == x || BeforeOccurs(ms[1..], x)
    ensures ms[0].before == x ==> !BeforeOccurs(ms[1..], x)
  {
    assert ms == [ms[0]] + ms[1..];
    assert forall m :: m in ms[1..] ==> m.before.key in BeforeKeys(ms[1..]);
  }

  ghost predicate AfterOccurs(ms: seq<Match>, x: Resource) {
    exists m :: m in ms && m.after == x
  }

  lemma {:induction false} AfterOccursOnce(ms: seq<Match>, x: Resource)
    requires OneToOne(ms)
    ensures multiset(Afters(ms))[x] == if AfterOccurs(ms, x) then 1 else 0
    decreases |ms|
  {
    hide OneToOne, AfterOccurs;
    if ms == [] {
      assert !AfterOccurs(ms, x) by { NothingAfter(x); }
    } else {
      RestIsOneToOne(ms);
      AfterOccursOnce(ms[1..], x);
      assert Afters(ms) == [ms[0].after] + Afters(ms[1..]);
      FirstAfter(ms, x);
    }
  }

  lemma NothingAfter(x: Resource)
    ensures !AfterOccurs([], x)
  {
  }

  lemma FirstAfter(ms: seq<Match>, x: Resource)
    requires ms != [] && ms[0].after.key !in AfterKeys(ms[1..])
    ensures AfterOccurs(ms, x) <==> ms[0].after == x || AfterOccurs(ms[1..], x)
    ensures ms[0].after == x ==> !AfterOccurs(ms[1..], x)
  {
    assert ms == [ms[0]] + ms[1..];
    assert forall m :: m in ms[1..] ==> m.after.key in AfterKeys(ms[1..]);
  }

  lemma {:induction false} OccursOnceInGraph(g: seq<Resource>, x: Resource)
    requires UniqueKeys(g)
    ensures multiset(g)[x] == if x in g then 1 else 0
    decreases |g|
  {
    if g != [] {
      assert g == [g[0]] + g[1..];
      assert forall i :: 0 <= i < |g[1..]| ==> g[1..][i] == g[i + 1];
      OccursOnceInGraph(g[1..], x);
    }
  }

  lemma SidesRearrange(baseline: seq<Resource>, proposed: seq<Resource>, r: MatchResult)
    requires IsPairing(baseline, proposed, r)
    ensures multiset(Befores(r.matches) + r.removed) == multiset(baseline)
    ensures multiset(Afters(r.matches) + r.added) == multiset(proposed)
  {
    hide OneToOne, Unmatched, UniqueKeys;
    forall x ensures multiset(Befores(r.matches) + r.removed)[x] == multiset(baseline)[x] {
      BeforeCounts(baseline, proposed, r, x);
    }
    forall x ensures multiset(Afters(r.matches) + r.added)[x] == multiset(proposed)[x] {
      AfterCounts(baseline, proposed, r, x);
    }
  }

  lemma BeforeCounts(baseline: seq<Resource>, proposed: seq<Resource>, r: MatchResult, x: Resource)
    requires IsPairing(baseline, proposed, r)
    ensures multiset(Befores(r.matches) + r.removed)[x] == multiset(baseline)[x]
  {
    hide OneToOne, Unmatched, Befores, Afters;
    BeforeOccursOnce(r.matches, x);
    OccursOnceInGraph(baseline, x);
    UnmatchedCounts(baseline, BeforeKeys(r.matches), x);
    if x in baseline && x.key in BeforeKeys(r.matches) {
      var m :| m in r.matches && m.before.key == x.key;
      assert m.before == x;
    }
  }

  lemma AfterCounts(baseline: seq<Resource>, proposed: seq<Resource>, r: MatchResult, x: Resource)
    requires IsPairing(baseline, proposed, r)
    ensures multiset(Afters(r.matches) + r.added)[x] == multiset(proposed)[x]
  {
    hide OneToOne, Unmatched, Befores, Afters;
    AfterOccursOnce(r.matches, x);
    OccursOnceInGraph(proposed, x);
    UnmatchedCounts(proposed, AfterKeys(r.matches), x);
    if x in proposed && x.key in AfterKeys(r.matches) {
      var m :| m in r.matches && m.after.key == x.key;
      assert m.after == x;
    }
  }

  lemma SubsetIsPriced(xs: seq<Resource>, ys: seq<Resource>, g: seq<Resource>, estimator: Estimator)
    requires multiset(xs + ys) == multiset(g) && PricesEverything(g, estimator)
    ensures PricesEverything(xs, estimator) && PricesEverything(ys, estimator)
  {
    hide AllPriced, PricesOf;
    forall x | x in xs || x in ys ensures x in g {
      assert x in xs + ys;
      assert x in multiset(xs + ys);
    }
  }

  /** Where every dimension is priced, the totals are the prices of the two graphs, whatever the
      pairing: matching decides how a difference is explained, never how much it is. */
  lemma TotalsArePrices(baseline: seq<Resource>, proposed: seq<Resource>, pairing: MatchResult,
                        estimator: Estimator, hours: int, report: CostReport)
    requires IsPairing(baseline, proposed, pairing) && IsEstimate(report, pairing, estimator, hours)
    requires PricesEverything(baseline, estimator) && PricesEverything(proposed, estimator)
    ensures report.totals.current == PriceOfGraph(baseline, estimator)
    ensures report.totals.proposed == PriceOfGraph(proposed, estimator)
    ensures report.totals.unknownCount == 0
  {
    hide IsEstimate, IsPairing, PriceOfGraph, TallyOf, MatchComponents, RemovedComponents, AddedComponents, PricesEverything;
    var ms, removed, added := pairing.matches, pairing.removed, pairing.added;
    SidesRearrange(baseline, proposed, pairing);
    SubsetIsPriced(Befores(ms), removed, baseline, estimator);
    SubsetIsPriced(Afters(ms), added, proposed, estimator);
    PricedMatches(ms, estimator);
    PricedSingles(removed, estimator);
    PricedSingles(added, estimator);
    TallyOfReport(report, pairing, estimator, hours);
    PriceIsOrderFree(Befores(ms) + removed, baseline, estimator);
    PriceIsOrderFree(Afters(ms) + added, proposed, estimator);
    PriceOfConcat(Befores(ms), removed, estimator);
    PriceOfConcat(Afters(ms), added, estimator);
  }
}
