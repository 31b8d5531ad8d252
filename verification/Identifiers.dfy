/** When the component identifiers of a report are unique. */
module Identifiers {
  import opened Templates
  import opened Ordering
  import opened Resources
  import opened Matching
  import opened MatchingLaws
  import opened Diff
  import opened Estimation
  import opened EstimationLaws

  /** The components of one pair, removal or addition: a key and its dimensions. */
  datatype Portion = Portion(key: ResourceKey, dimensions: set<string>)

  function Dimensions(r: Resource, estimator: Estimator): set<string> {
    PricesOf(r, estimator).Keys
  }

  function MatchPortion(m: Match, estimator: Estimator): Portion {
    Portion(m.after.key, Dimensions(m.before, estimator) + Dimensions(m.after, estimator))
  }

  function SinglePortion(r: Resource, estimator: Estimator): Portion {
    Portion(r.key, Dimensions(r, estimator))
  }

  function MatchPortions(ms: seq<Match>, estimator: Estimator): seq<Portion> {
    seq(|ms|, i requires 0 <= i < |ms| => MatchPortion(ms[i], estimator))
  }

  function SinglePortions(rs: seq<Resource>, estimator: Estimator): seq<Portion> {
    seq(|rs|, i requires 0 <= i < |rs| => SinglePortion(rs[i], estimator))
  }

  ghost function IdsIn(b: Portion): seq<string> {
    var ds := Arranged(b.dimensions);
    seq(|ds|, i requires 0 <= i < |ds| => ComponentId(b.key, ds[i]))
  }

  ghost function PortionIds(bs: seq<Portion>): seq<string> {
    if bs == [] then [] else IdsIn(bs[0]) + PortionIds(bs[1..])
  }

  lemma {:induction false} PortionIdsOfConcat(xs: seq<Portion>, ys: seq<Portion>)
    ensures PortionIds(xs + ys) == PortionIds(xs) + PortionIds(ys)
    decreases |xs|
  {
    if xs == [] {
      assert xs + ys == ys;
    } else {
      assert (xs + ys)[1..] == xs[1..] + ys;
      PortionIdsOfConcat(xs[1..], ys);
    }
  }

  lemma PairedIds(key: ResourceKey, before: Estimates, after: Estimates)
    ensures Ids(Paired(key, before, after)) == IdsIn(Portion(key, before.Keys + after.Keys))
  {
    hide Arranged, BuildComponent, ComponentId;
    ArrangedMembers(before.Keys + after.Keys);
    var ds, cs := Arranged(before.Keys + after.Keys), Paired(key, before, after);
    forall i | 0 <= i < |ds|
      ensures cs[i].id == ComponentId(key, ds[i])
    {
      assert ds[i] in before.Keys + after.Keys;
      BuiltId(key, ds[i], Lookup1(before, ds[i]), Lookup1(after, ds[i]));
    }
  }

  lemma BuiltId(key: ResourceKey, d: string, before: Option<DimensionEstimate>, after: Option<DimensionEstimate>)
    requires before.Some? || after.Some?
    ensures BuildComponent(key, d, before, after).id == ComponentId(key, d)
  {
  }

  lemma {:induction false} MatchIds(ms: seq<Match>, estimator: Estimator)
    ensures Ids(MatchComponents(ms, estimator)) == PortionIds(MatchPortions(ms, estimator))
    decreases |ms|
  {
    hide Paired, IdsIn, PricesOf, Ids;
    if ms == [] {
      assert MatchPortions(ms, estimator) == [];
      IdsOfNothing();
    } else {
      var key, before, after := ms[0].after.key, PricesOf(ms[0].before, estimator), PricesOf(ms[0].after, estimator);
      MatchIds(ms[1..], estimator);
      PairedIds(key, before, after);
      assert MatchPortions(ms, estimator)[1..] == MatchPortions(ms[1..], estimator);
      assert MatchPortions(ms, estimator)[0] == Portion(key, before.Keys + after.Keys);
      IdsOfConcat(Paired(key, before, after), MatchComponents(ms[1..], estimator));
    }
  }

  lemma {:induction false} SingleIds(rs: seq<Resource>, estimator: Estimator)
    ensures Ids(RemovedComponents(rs, estimator)) == PortionIds(SinglePortions(rs, estimator))
    ensures Ids(AddedComponents(rs, estimator)) == PortionIds(SinglePortions(rs, estimator))
    decreases |rs|
  {
    hide Paired, IdsIn;
    if rs == [] {
      assert SinglePortions(rs, estimator) == [];
    } else {
      var prices, nothing: Estimates := PricesOf(rs[0], estimator), map[];
      SingleIds(rs[1..], estimator);
      PairedIds(rs[0].key, prices, nothing);
      PairedIds(rs[0].key, nothing, prices);
      assert prices.Keys + nothing.Keys == prices.Keys == nothing.Keys + prices.Keys;
      assert SinglePortions(rs, estimator)[1..] == SinglePortions(rs[1..], estimator);
      IdsOfConcat(Paired(rs[0].key, prices, nothing), RemovedComponents(rs[1..], estimator));
      IdsOfConcat(Paired(rs[0].key, nothing, prices), AddedComponents(rs[1..], estimator));
    }
  }

  lemma IdsOfNothing()
    ensures Ids([]) == []
  {
  }

  lemma IdsOfConcat(xs: seq<CostComponent>, ys: seq<CostComponent>)
    ensures Ids(xs + ys) == Ids(xs) + Ids(ys)
  {
  }

  // ----- identifiers can be read back -----

  /** Text split at its first separator. */
  lemma SplitAtFirst(a: string, b: string, a': string, b': string, c: char)
    requires c !in a && c !in a' && a + [c] + b == a' + [c] + b'
    ensures a == a' && b == b'
  {
    var t, n, n' := a + [c] + b, |a|, |a'|;
    assert t[n] == c && t[n'] == c;
    forall i | 0 <= i < n ensures t[i] != c { assert t[i] == a[i]; }
    forall i | 0 <= i < n' ensures t[i] != c { assert t[i] == a'[i]; }
    assert n == n';
    assert a == t[..n] == a';
    assert b == t[n + 1..] == b';
  }

  /** Names as CloudFormation allows them: no slash in a stack, no hash sign in a logical ID. */
  predicate PlainKey(k: ResourceKey) {
    '/' !in k.stack && '#' !in k.logicalId
  }

  lemma ComponentIdIsInjective(k: ResourceKey, d: string, k': ResourceKey, d': string)
    requires PlainKey(k) && PlainKey(k') && ComponentId(k, d) == ComponentId(k', d')
    ensures k == k' && d == d'
  {
    var rest, rest' := k.logicalId + "#" + d, k'.logicalId + "#" + d';
    assert ComponentId(k, d) == k.stack + "/" + rest;
    assert ComponentId(k', d') == k'.stack + "/" + rest';
    SplitAtFirst(k.stack, rest, k'.stack, rest', '/');
    SplitAtFirst(k.logicalId, d, k'.logicalId, d', '#');
  }

  // ----- repetition within and between portions -----

  predicate Apart(x: Portion, y: Portion) {
    x.key == y.key ==> x.dimensions !! y.dimensions
  }

  ghost predicate AllApart(ps: seq<Portion>) {
    forall i, j :: 0 <= i < j < |ps| ==> Apart(ps[i], ps[j])
  }

  lemma IdsInMembers(b: Portion, id: string)
    ensures id in IdsIn(b) <==> exists d :: d in b.dimensions && id == ComponentId(b.key, d)
  {
    hide ComponentId;
    ArrangedMembers(b.dimensions);
    var ds := Arranged(b.dimensions);
    if d :| d in b.dimensions && id == ComponentId(b.key, d) {
      var i :| 0 <= i < |ds| && ds[i] == d;
      assert IdsIn(b)[i] == id;
    }
    if id in IdsIn(b) {
      var i :| 0 <= i < |ds| && IdsIn(b)[i] == id;
      assert ds[i] in b.dimensions;
    }
  }

  lemma IdsInAreDistinct(b: Portion)
    requires PlainKey(b.key)
    ensures Distinct(IdsIn(b))
  {
    hide ComponentId;
    ArrangedMembers(b.dimensions);
    var ds, ids := Arranged(b.dimensions), IdsIn(b);
    forall i, j | 0 <= i < |ids| && 0 <= j < |ids| && ids[i] == ids[j]
      ensures i == j
    {
      ComponentIdIsInjective(b.key, ds[i], b.key, ds[j]);
      if i != j { ListedOnce(ds, i, j); }
    }
  }

  lemma ListedOnce(xs: seq<string>, i: nat, j: nat)
    requires i < |xs| && j < |xs| && i != j && xs[i] == xs[j]
    ensures multiset(xs)[xs[i]] >= 2
  {
    var lo, hi := if i < j then i else j, if i < j then j else i;
    assert xs == xs[..lo] + [xs[lo]] + xs[lo + 1..hi] + [xs[hi]] + xs[hi + 1..];
  }

  lemma PortionsShareAnId(x: Portion, y: Portion)
    requires PlainKey(x.key) && PlainKey(y.key)
    ensures Apart(x, y) <==> forall id :: id in IdsIn(x) ==> id !in IdsIn(y)
  {
    hide ComponentId, IdsIn;
    if d :| x.key == y.key && d in x.dimensions && d in y.dimensions {
      IdsInMembers(x, ComponentId(x.key, d));
      IdsInMembers(y, ComponentId(y.key, d));
    }
    forall id | id in IdsIn(x) && id in IdsIn(y)
      ensures !Apart(x, y)
    {
      IdsInMembers(x, id);
      IdsInMembers(y, id);
      var d :| d in x.dimensions && id == ComponentId(x.key, d);
      var d' :| d' in y.dimensions && id == ComponentId(y.key, d');
      ComponentIdIsInjective(x.key, d, y.key, d');
    }
  }

  lemma DistinctConcat(xs: seq<string>, ys: seq<string>)
    ensures Distinct(xs + ys) <==> Distinct(xs) && Distinct(ys) && forall x :: x in xs ==> x !in ys
  {
    var zs := xs + ys;
    if Distinct(zs) {
      forall i, j | 0 <= i < |xs| && 0 <= j < |xs| && xs[i] == xs[j] ensures i == j {
        assert zs[i] == zs[j];
      }
      forall i, j | 0 <= i < |ys| && 0 <= j < |ys| && ys[i] == ys[j] ensures i == j {
        assert zs[|xs| + i] == zs[|xs| + j];
      }
      forall i, j | 0 <= i < |xs| && 0 <= j < |ys| ensures xs[i] != ys[j] {
        assert zs[i] == xs[i] && zs[|xs| + j] == ys[j];
      }
    } else {
      var i, j :| 0 <= i < |zs| && 0 <= j < |zs| && zs[i] == zs[j] && i != j;
      assert if i < |xs| then zs[i] == xs[i] && xs[i] in xs else zs[i] == ys[i - |xs|] && ys[i - |xs|] in ys;
      assert if j < |xs| then zs[j] == xs[j] && xs[j] in xs else zs[j] == ys[j - |xs|] && ys[j - |xs|] in ys;
    }
  }

  lemma {:induction false} PortionIdsMembers(bs: seq<Portion>, id: string)
    ensures id in PortionIds(bs) <==> exists i :: 0 <= i < |bs| && id in IdsIn(bs[i])
    decreases |bs|
  {
    hide IdsIn;
    if bs != [] {
      PortionIdsMembers(bs[1..], id);
      assert forall i :: 1 <= i < |bs| ==> bs[i] == bs[1..][i - 1];
      if i :| 0 <= i < |bs[1..]| && id in IdsIn(bs[1..][i]) { assert id in IdsIn(bs[i + 1]); }
    }
  }

  /** All identifiers differ exactly when no two portions share a key and a dimension. */
  lemma {:induction false} PortionsAreApart(bs: seq<Portion>)
    requires forall i :: 0 <= i < |bs| ==> PlainKey(bs[i].key)
    ensures Distinct(PortionIds(bs)) <==> AllApart(bs)
    decreases |bs|
  {
    hide IdsIn, Distinct, Apart, PlainKey;
    if bs == [] {
      assert Distinct([]) by { NothingRepeats(); }
    } else {
      var rest := bs[1..];
      PortionsAreApart(rest);
      IdsInAreDistinct(bs[0]);
      DistinctConcat(IdsIn(bs[0]), PortionIds(rest));
      FirstIsApart(bs);
      assert forall i :: 0 <= i < |rest| ==> rest[i] == bs[i + 1];
    }
  }

  lemma NothingRepeats()
    ensures Distinct([])
  {
  }

  lemma FirstIsApart(bs: seq<Portion>)
    requires bs != [] && forall i :: 0 <= i < |bs| ==> PlainKey(bs[i].key)
    ensures (forall id :: id in IdsIn(bs[0]) ==> id !in PortionIds(bs[1..])) <==> forall j :: 0 < j < |bs| ==> Apart(bs[0], bs[j])
  {
    hide IdsIn, Apart, PlainKey, PortionIds;
    var rest := bs[1..];
    forall id ensures id in PortionIds(rest) <==> exists i :: 0 <= i < |rest| && id in IdsIn(rest[i]) {
      PortionIdsMembers(rest, id);
    }
    forall j | 0 < j < |bs|
      ensures Apart(bs[0], bs[j]) <==> forall id :: id in IdsIn(bs[0]) ==> id !in IdsIn(rest[j - 1])
    {
      PortionsShareAnId(bs[0], bs[j]);
    }
    if forall j :: 0 < j < |bs| ==> Apart(bs[0], bs[j]) {
      forall id | id in IdsIn(bs[0])
        ensures id !in PortionIds(rest)
      {
        forall i | 0 <= i < |rest| ensures id !in IdsIn(rest[i]) {
          assert Apart(bs[0], bs[i + 1]);
        }
      }
    }
  }

  // ----- the portions of a pairing -----

  ghost function PortionsOf(r: MatchResult, estimator: Estimator): seq<Portion> {
    MatchPortions(r.matches, estimator) + SinglePortions(r.removed, estimator) + SinglePortions(r.added, estimator)
  }

  lemma {:induction false} UnmatchedKeys(rs: seq<Resource>, keys: set<ResourceKey>)
    requires UniqueKeys(rs)
    ensures UniqueKeys(Unmatched(rs, keys))
    ensures forall x :: x in Unmatched(rs, keys) ==> x in rs && x.key !in keys
    decreases |rs|
  {
    if rs != [] {
      UnmatchedKeys(rs[1..], keys);
      var rest := Unmatched(rs[1..], keys);
      forall i | 0 <= i < |rest| ensures rest[i].key != rs[0].key {
        assert rest[i] in rs[1..];
      }
    }
  }

  lemma {:induction false} MatchesByIndex(ms: seq<Match>)
    requires OneToOne(ms)
    ensures forall i, j :: 0 <= i < |ms| && 0 <= j < |ms| && ms[i].after.key == ms[j].after.key ==> i == j
    decreases |ms|
  {
    hide OneToOne;
    if ms != [] {
      RestIsOneToOne(ms);
      MatchesByIndex(ms[1..]);
      forall i | 1 <= i < |ms| ensures ms[i].after.key != ms[0].after.key {
        assert ms[i] in ms[1..];
      }
      assert forall i :: 1 <= i < |ms| ==> ms[i] == ms[1..][i - 1];
    }
  }

  /** A removed resource's key lives on at the proposed side, with a dimension in common. */
  ghost predicate Reused(x: Resource, r: MatchResult, estimator: Estimator) {
    || (exists m :: m in r.matches && !Apart(MatchPortion(m, estimator), SinglePortion(x, estimator)))
    || (exists a :: a in r.added && !Apart(SinglePortion(x, estimator), SinglePortion(a, estimator)))
  }

  /** A pairing of two graphs, however it was found. */
  ghost predicate IsPairing(baseline: seq<Resource>, proposed: seq<Resource>, r: MatchResult) {
    && UniqueKeys(baseline) && UniqueKeys(proposed) && OneToOne(r.matches)
    && (forall m :: m in r.matches ==> m.before in baseline && m.after in proposed)
    && r.removed == Unmatched(baseline, BeforeKeys(r.matches))
    && r.added == Unmatched(proposed, AfterKeys(r.matches))
  }

  lemma PortionAt(r: MatchResult, estimator: Estimator, i: nat)
    requires i < |PortionsOf(r, estimator)|
    ensures |PortionsOf(r, estimator)| == |r.matches| + |r.removed| + |r.added|
    ensures var n, k := |r.matches|, |r.removed|;
            PortionsOf(r, estimator)[i]
            == if i < n then MatchPortion(r.matches[i], estimator)
               else if i < n + k then SinglePortion(r.removed[i - n], estimator)
               else SinglePortion(r.added[i - n - k], estimator)
  {
  }

  ghost predicate NothingReused(r: MatchResult, estimator: Estimator) {
    forall x :: x in r.removed ==> !Reused(x, r, estimator)
  }

  lemma FreshKeysKeepApart(baseline: seq<Resource>, proposed: seq<Resource>, r: MatchResult, estimator: Estimator)
    requires IsPairing(baseline, proposed, r) && NothingReused(r, estimator)
    ensures AllApart(PortionsOf(r, estimator))
  {
    hide Unmatched, OneToOne, Dimensions, Apart, UniqueKeys, PortionsOf;
    var ps, n, k := PortionsOf(r, estimator), |r.matches|, |r.removed|;
    UnmatchedKeys(baseline, BeforeKeys(r.matches));
    UnmatchedKeys(proposed, AfterKeys(r.matches));
    forall i, j | 0 <= i < j < |ps| ensures Apart(ps[i], ps[j]) {
      PortionAt(r, estimator, i);
      PortionAt(r, estimator, j);
      if i < n && n <= j < n + k {
        assert r.matches[i] in r.matches && !Reused(r.removed[j - n], r, estimator);
      } else if n <= i < n + k && n + k <= j {
        assert r.added[j - n - k] in r.added && !Reused(r.removed[i - n], r, estimator);
      } else { SameSideKeysDiffer(proposed, r, estimator, i, j); }
    }
  }

  lemma SameSideKeysDiffer(proposed: seq<Resource>, r: MatchResult, estimator: Estimator, i: nat, j: nat)
    requires i < j < |PortionsOf(r, estimator)| && OneToOne(r.matches)
    requires var n, k := |r.matches|, |r.removed|; !(i < n && n <= j < n + k) && !(n <= i < n + k && n + k <= j)
    requires UniqueKeys(proposed) && r.added == Unmatched(proposed, AfterKeys(r.matches)) && UniqueKeys(r.removed)
    ensures PortionsOf(r, estimator)[i].key != PortionsOf(r, estimator)[j].key
    ensures Apart(PortionsOf(r, estimator)[i], PortionsOf(r, estimator)[j])
  {
    hide Unmatched, OneToOne, Dimensions, PortionsOf;
    var n, k := |r.matches|, |r.removed|;
    MatchesByIndex(r.matches);
    UnmatchedKeys(proposed, AfterKeys(r.matches));
    PortionAt(r, estimator, i);
    PortionAt(r, estimator, j);
    if i < n && n + k <= j {
      assert r.matches[i].after.key in AfterKeys(r.matches);
      assert r.added[j - n - k] in r.added;
    }
  }

  lemma ApartKeysAreFresh(r: MatchResult, estimator: Estimator)
    requires AllApart(PortionsOf(r, estimator))
    ensures NothingReused(r, estimator)
  {
    hide Dimensions, Apart;
    var n, k := |r.matches|, |r.removed|;
    forall x | x in r.removed ensures !Reused(x, r, estimator) {
      var l :| 0 <= l < k && r.removed[l] == x;
      PortionAt(r, estimator, n + l);
      forall m | m in r.matches ensures Apart(MatchPortion(m, estimator), SinglePortion(x, estimator)) {
        var i :| 0 <= i < n && r.matches[i] == m;
        PortionAt(r, estimator, i);
      }
      forall a | a in r.added ensures Apart(SinglePortion(x, estimator), SinglePortion(a, estimator)) {
        var j :| 0 <= j < |r.added| && r.added[j] == a;
        PortionAt(r, estimator, n + k + j);
      }
    }
  }

  lemma DistinctIsOrderFree(xs: seq<string>, ys: seq<string>)
    requires multiset(xs) == multiset(ys) && Distinct(xs)
    ensures Distinct(ys)
  {
    forall i, j | 0 <= i < |ys| && 0 <= j < |ys| && ys[i] == ys[j] ensures i == j {
      if i != j {
        ListedOnce(ys, i, j);
        AtMostOnce(xs, ys[i]);
      }
    }
  }

  lemma {:induction false} AtMostOnce(xs: seq<string>, x: string)
    requires Distinct(xs)
    ensures multiset(xs)[x] <= 1
    decreases |xs|
  {
    if xs != [] {
      assert xs == [xs[0]] + xs[1..];
      DistinctConcat([xs[0]], xs[1..]);
      AtMostOnce(xs[1..], x);
      assert x == xs[0] ==> x !in multiset(xs[1..]);
    }
  }

  lemma {:induction false} IdsAreOrderFree(xs: seq<CostComponent>, ys: seq<CostComponent>)
    requires multiset(xs) == multiset(ys)
    ensures multiset(Ids(xs)) == multiset(Ids(ys))
    decreases |xs|
  {
    assert |multiset(xs)| == |xs| && |multiset(ys)| == |ys|;
    if xs != [] {
      var i := TakeOut(xs, ys);
      IdsAreOrderFree(xs[1..], ys[..i] + ys[i + 1..]);
      IdsOfConcat(ys[..i], ys[i + 1..]);
      IdsOfConcat(ys[..i], [ys[i]] + ys[i + 1..]);
      IdsOfConcat([ys[i]], ys[i + 1..]);
      IdsOfConcat([xs[0]], xs[1..]);
      assert xs == [xs[0]] + xs[1..];
    }
  }

  lemma ReportIds(report: CostReport, pairing: MatchResult, estimator: Estimator, hours: int)
    requires IsEstimate(report, pairing, estimator, hours)
    ensures Distinct(Ids(report.components)) <==> Distinct(PortionIds(PortionsOf(pairing, estimator)))
  {
    hide MatchComponents, RemovedComponents, AddedComponents, SortBy, Distinct, Ids, PortionIds, MatchPortions, SinglePortions, TotalsOf;
    var all := AllComponents(pairing, estimator);
    SortKeepsItems(all, IdAtMost);
    IdsAreOrderFree(report.components, all);
    MatchIds(pairing.matches, estimator);
    SingleIds(pairing.removed, estimator);
    SingleIds(pairing.added, estimator);
    var a, b, c := MatchComponents(pairing.matches, estimator), RemovedComponents(pairing.removed, estimator), AddedComponents(pairing.added, estimator);
    IdsOfConcat(a, b);
    IdsOfConcat(a + b, c);
    var p, q, s := MatchPortions(pairing.matches, estimator), SinglePortions(pairing.removed, estimator), SinglePortions(pairing.added, estimator);
    PortionIdsOfConcat(p, q);
    PortionIdsOfConcat(p + q, s);
    assert Ids(all) == PortionIds(p + q + s);
    if Distinct(Ids(report.components)) { DistinctIsOrderFree(Ids(report.components), Ids(all)); }
    if Distinct(Ids(all)) { DistinctIsOrderFree(Ids(all), Ids(report.components)); }
  }

  /** A report passes reconciliation exactly when no removed resource's key is reused on the
      proposed side together with one of its dimensions. */
  lemma ReportAddsUpExactly(baseline: seq<Resource>, proposed: seq<Resource>, pairing: MatchResult,
                            estimator: Estimator, hours: int, report: CostReport)
    requires IsPairing(baseline, proposed, pairing) && HonestEstimator(estimator) && hours > 0
    requires forall x :: x in baseline + proposed ==> PlainKey(x.key)
    requires IsEstimate(report, pairing, estimator, hours)
    ensures AddsUp(report) <==> NothingReused(pairing, estimator)
  {
    hide IsEstimate, AddsUp, HonestEstimator, Reused, PlainKey, Distinct, Apart, Unmatched, PortionIds, OneToOne;
    EveryReportReconciles(report, pairing, estimator, hours);
    ReportIds(report, pairing, estimator, hours);
    var bs := PortionsOf(pairing, estimator);
    UnmatchedKeys(baseline, BeforeKeys(pairing.matches));
    UnmatchedKeys(proposed, AfterKeys(pairing.matches));
    forall i | 0 <= i < |bs| ensures PlainKey(bs[i].key) {
      PortionAt(pairing, estimator, i);
      var n, k := |pairing.matches|, |pairing.removed|;
      if i < n { assert pairing.matches[i].after in baseline + proposed; }
      else if i < n + k { assert pairing.removed[i - n] in baseline + proposed; }
      else { assert pairing.added[i - n - k] in baseline + proposed; }
    }
    PortionsAreApart(bs);
    if NothingReused(pairing, estimator) { FreshKeysKeepApart(baseline, proposed, pairing, estimator); }
    if AllApart(bs) { ApartKeysAreFresh(pairing, estimator); }
  }

  /** A resource that keeps its name but changes its type is a removal and an addition under one
      key.  If both types are priced on a dimension of the same name, as two unsupported types
      are, the report names it twice and is refused. */
  lemma RetypedResourceIsRefused(x: Resource, y: Resource, estimator: Estimator, hours: int, pairing: MatchResult, report: CostReport)
    requires x.key == y.key && x.resourceType != y.resourceType && PlainKey(x.key)
    requires !(Dimensions(x, estimator) !! Dimensions(y, estimator))
    requires HonestEstimator(estimator) && hours > 0
    requires IsMatching([x], [y], pairing) && IsEstimate(report, pairing, estimator, hours)
    ensures !AddsUp(report)
  {
    hide IsEstimate, AddsUp, HonestEstimator, Dimensions;
    assert pairing.matches == [] by {
      assert pairing.matches != [] ==> pairing.matches[0] in pairing.matches && Candidate(pairing.matches[0], [x], [y]);
    }
    assert BeforeKeys(pairing.matches) == {} && AfterKeys(pairing.matches) == {};
    assert Unmatched([x], {}) == [x] by { assert [x][1..] == []; }
    assert Unmatched([y], {}) == [y] by { assert [y][1..] == []; }
    assert pairing.removed == [x] && pairing.added == [y];
    assert forall z :: z in [x] + [y] ==> PlainKey(z.key);
    ReportAddsUpExactly([x], [y], pairing, estimator, hours, report);
    assert x in pairing.removed && y in pairing.added;
    assert Reused(x, pairing, estimator);
  }
}
