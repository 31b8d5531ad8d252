/** What the diff conserves, and how it reads backwards. */
module DiffLaws {
  import opened Templates
  import opened Ordering
  import opened Resources
  import opened Matching
  import opened MatchingLaws
  import opened Metadata
  import opened Diff

  type Properties = map<string, PropertyValue>

  // ----- round trip -----

  function ApplyDeltas(properties: Properties, deltas: seq<PropertyDelta>): Properties
    decreases |deltas|
  {
    if deltas == [] then properties
    else
      var d := deltas[0];
      var next := match d.after case Some(v) => properties[d.path := v] case None => properties - {d.path};
      ApplyDeltas(next, deltas[1..])
  }

  lemma {:induction false} DeltasDescribe(before: Properties, after: Properties, resourceType: string, table: MetadataTable, paths: seq<string>)
    ensures var ds := FilterMap(paths, path => DeltaAt(path, before, after, resourceType, table));
            && (forall d :: d in ds ==> d.path in paths && DeltaAt(d.path, before, after, resourceType, table) == Some(d))
            && (forall p :: p in paths && !SameValue(At(before, p), At(after, p)) ==>
                  exists d :: d in ds && d.path == p)
  {
    hide Describe, SameValue;
    if paths != [] {
      DeltasDescribe(before, after, resourceType, table, paths[1..]);
      var f := path => DeltaAt(path, before, after, resourceType, table);
      assert FilterMap(paths, f) == (match f(paths[0]) case None => [] case Some(u) => [u]) + FilterMap(paths[1..], f);
    }
  }

  lemma {:induction false} ApplyingSets(m: Properties, deltas: seq<PropertyDelta>, after: Properties, p: string)
    requires forall d :: d in deltas ==> d.after == At(after, d.path)
    ensures At(ApplyDeltas(m, deltas), p)
            == if exists d :: d in deltas && d.path == p then At(after, p) else At(m, p)
    decreases |deltas|
  {
    if deltas != [] {
      var d := deltas[0];
      var next := match d.after case Some(v) => m[d.path := v] case None => m - {d.path};
      ApplyingSets(next, deltas[1..], after, p);
      assert forall e :: e in deltas <==> e == d || e in deltas[1..];
    }
  }

  /** Applying the deltas to the old properties yields the new ones, up to the equality the
      comparison uses; a path without a delta keeps its old value. */
  lemma DiffRoundTrips(before: Properties, after: Properties, resourceType: string, table: MetadataTable, p: string)
    ensures var patched := ApplyDeltas(before, Deltas(before, after, resourceType, table));
            && SameValue(At(patched, p), At(after, p))
            && (At(patched, p) == At(after, p) || At(patched, p) == At(before, p))
  {
    hide Describe, FilterMap;
    var paths, ds := Arranged(before.Keys + after.Keys), Deltas(before, after, resourceType, table);
    ArrangedMembers(before.Keys + after.Keys);
    DeltasDescribe(before, after, resourceType, table, paths);
    ApplyingSets(before, ds, after, p);
  }

  /** The patched properties are the new ones exactly where no old value merely looks equal to
      the new one, as `true` looks equal to `1`. */
  lemma DiffRoundTripsExactly(before: Properties, after: Properties, resourceType: string, table: MetadataTable)
    ensures ApplyDeltas(before, Deltas(before, after, resourceType, table)) == after
            <==> forall p :: p in before && p in after && SameValue(Some(before[p]), Some(after[p])) ==> before[p] == after[p]
  {
    hide Describe, FilterMap;
    var patched, paths := ApplyDeltas(before, Deltas(before, after, resourceType, table)), Arranged(before.Keys + after.Keys);
    var ds := Deltas(before, after, resourceType, table);
    ArrangedMembers(before.Keys + after.Keys);
    DeltasDescribe(before, after, resourceType, table, paths);
    forall p
      ensures At(patched, p) == if SameValue(At(before, p), At(after, p)) then At(before, p) else At(after, p)
    {
      ApplyingSets(before, ds, after, p);
    }
    if forall p :: p in before && p in after && SameValue(Some(before[p]), Some(after[p])) ==> before[p] == after[p] {
      forall p ensures At(patched, p) == At(after, p) {
      }
      SameEverywhere(patched, after);
    }
    if patched == after {
      forall p | p in before && p in after && SameValue(Some(before[p]), Some(after[p]))
        ensures before[p] == after[p]
      {
        assert At(patched, p) == At(before, p);
      }
    }
  }

  lemma SameEverywhere(m: Properties, m': Properties)
    requires forall p :: At(m, p) == At(m', p)
    ensures m == m'
  {
    forall p ensures p in m <==> p in m' {
      assert At(m, p) == At(m', p);
    }
    forall p | p in m ensures m[p] == m'[p] {
      assert At(m, p) == At(m', p);
    }
  }

  /** A boolean that becomes the integer it equals is not noticed. */
  lemma TrueLooksLikeOne(path: string, resourceType: string, table: MetadataTable)
    ensures Deltas(map[path := Resolved(Bool(true), FromTemplate)], map[path := Resolved(Int(1), FromTemplate)], resourceType, table) == []
  {
    var before: Properties, after: Properties := map[path := Resolved(Bool(true), FromTemplate)], map[path := Resolved(Int(1), FromTemplate)];
    NoDeltasIffEqual(before, after, resourceType, table);
  }

  /** There are no deltas exactly when the two maps compare equal at every path. */
  lemma NoDeltasIffEqual(before: Properties, after: Properties, resourceType: string, table: MetadataTable)
    ensures Deltas(before, after, resourceType, table) == [] <==> forall p :: SameValue(At(before, p), At(after, p))
  {
    hide Describe, FilterMap;
    var paths, ds := Arranged(before.Keys + after.Keys), Deltas(before, after, resourceType, table);
    ArrangedMembers(before.Keys + after.Keys);
    DeltasDescribe(before, after, resourceType, table, paths);
    if ds == [] {
      forall p ensures SameValue(At(before, p), At(after, p)) {
        if p !in paths { assert p !in before && p !in after; }
      }
    } else {
      assert ds[0] in ds;
    }
  }

  // ----- validity and conservation -----

  lemma {:induction false} PairChangesAreValid(ms: seq<Match>, table: MetadataTable)
    requires forall m :: m in ms ==> Pairable(m.before, m.after)
    ensures forall c :: c in PairChanges(ms, table) ==>
              && ValidChange(c) && c.how.Some? && c.before.Some? && c.after.Some?
              && forall d :: d in c.changed ==> ValidDelta(d)
    ensures |PairChanges(ms, table)| <= |ms|
  {
    hide Deltas, Classify, Describe;
    if ms != [] {
      PairChangesAreValid(ms[1..], table);
      PairChangeIsValid(ms[0], table);
      var f := m => ChangedPair(m, table);
      assert FilterMap(ms, f) == (match f(ms[0]) case None => [] case Some(u) => [u]) + FilterMap(ms[1..], f);
    }
  }

  lemma PairChangeIsValid(m: Match, table: MetadataTable)
    requires Pairable(m.before, m.after)
    ensures ChangedPair(m, table).Some? ==>
              var c := ChangedPair(m, table).value;
              && ValidChange(c) && c.how.Some? && c.before.Some? && c.after.Some?
              && forall d :: d in c.changed ==> ValidDelta(d)
  {
    hide Describe, FilterMap, SameValue;
    var before, after := m.before.properties, m.after.properties;
    DeltasDescribe(before, after, m.after.resourceType, table, Arranged(before.Keys + after.Keys));
    forall d | d in Deltas(before, after, m.after.resourceType, table)
      ensures ValidDelta(d)
    {
      BothAbsentIsSame();
    }
  }

  lemma BothAbsentIsSame()
    ensures SameValue(None, None)
  {
  }

  /** Every change that `Compare` builds passes the validators of changes and deltas. */
  lemma EveryChangeIsValid(cs: ChangeSet, baseline: seq<Resource>, proposed: seq<Resource>, r: MatchResult, table: MetadataTable)
    requires IsChangeSet(cs, baseline, proposed, r, table)
    requires forall m :: m in r.matches ==> Candidate(m, baseline, proposed)
    ensures forall c :: c in cs.changes ==> ValidChange(c) && forall d :: d in c.changed ==> ValidDelta(d)
  {
    hide PairChanges, SortBy;
    PairChangesAreValid(r.matches, table);
    SortKeepsItems(AllChanges(r, table), ChangeAtMost);
    forall c | c in cs.changes
      ensures ValidChange(c) && forall d :: d in c.changed ==> ValidDelta(d)
    {
      assert c in multiset(cs.changes) && c in multiset(AllChanges(r, table));
      if c !in PairChanges(r.matches, table) { SingleChangeIsValid(c, r.removed, r.added); }
    }
  }

  lemma SingleChangeIsValid(c: ResourceChange, removed: seq<Resource>, added: seq<Resource>)
    requires c in Each(removed, Removal) || c in Each(added, Addition)
    ensures ValidChange(c) && c.changed == []
  {
    if c in Each(removed, Removal) {
      var i :| 0 <= i < |removed| && c == Removal(removed[i]);
      SingleIsValid(removed[i]);
    } else {
      var i :| 0 <= i < |added| && c == Addition(added[i]);
      SingleIsValid(added[i]);
    }
  }

  lemma SingleIsValid(x: Resource)
    ensures ValidChange(Removal(x)) && Removal(x).changed == []
    ensures ValidChange(Addition(x)) && Addition(x).changed == []
  {
  }

  function CountOf(changes: seq<ResourceChange>, operation: Operation): nat {
    if changes == [] then 0
    else (if changes[0].operation == operation then 1 else 0) + CountOf(changes[1..], operation)
  }

  lemma {:induction false} CountOfConcat(xs: seq<ResourceChange>, ys: seq<ResourceChange>, operation: Operation)
    ensures CountOf(xs + ys, operation) == CountOf(xs, operation) + CountOf(ys, operation)
  {
    if xs == [] {
      assert xs + ys == ys;
    } else {
      assert (xs + ys)[1..] == xs[1..] + ys;
      CountOfConcat(xs[1..], ys, operation);
    }
  }

  lemma {:induction false} CountIsOrderFree(xs: seq<ResourceChange>, ys: seq<ResourceChange>, operation: Operation)
    requires multiset(xs) == multiset(ys)
    ensures CountOf(xs, operation) == CountOf(ys, operation)
  {
    assert |multiset(xs)| == |xs| && |multiset(ys)| == |ys|;
    if xs != [] {
      var i := TakeOut(xs, ys);
      CountIsOrderFree(xs[1..], ys[..i] + ys[i + 1..], operation);
      CountOfConcat(ys[..i], ys[i + 1..], operation);
      CountOfConcat(ys[..i], [ys[i]] + ys[i + 1..], operation);
      assert ([ys[i]] + ys[i + 1..])[1..] == ys[i + 1..];
    }
  }

  lemma {:induction false} CountOfEach(xs: seq<Resource>, f: Resource -> ResourceChange, made: Operation, operation: Operation)
    requires forall x :: f(x).operation == made
    ensures CountOf(Each(xs, f), operation) == if operation == made then |xs| else 0
    decreases |xs|
  {
    if xs != [] {
      CountOfEach(xs[1..], f, made, operation);
      assert Each(xs, f) == [f(xs[0])] + Each(xs[1..], f);
    }
  }

  lemma {:induction false} CountOfPairs(cs: seq<ResourceChange>, operation: Operation)
    requires forall c :: c in cs ==> ValidChange(c) && c.how.Some? && c.before.Some? && c.after.Some?
    ensures operation.Add? || operation.Remove? ==> CountOf(cs, operation) == 0
  {
    hide ValidChange;
    if cs != [] {
      assert cs[0] in cs;
      PairedIsNeither(cs[0]);
      CountOfPairs(cs[1..], operation);
    }
  }

  lemma PairedIsNeither(c: ResourceChange)
    requires ValidChange(c) && c.before.Some? && c.after.Some?
    ensures !c.operation.Add? && !c.operation.Remove?
  {
  }

  /** Every resource is accounted for once: unchanged, changed as a pair, removed or added. */
  lemma CompareConserves(cs: ChangeSet, baseline: seq<Resource>, proposed: seq<Resource>, r: MatchResult, table: MetadataTable)
    requires UniqueKeys(baseline) && UniqueKeys(proposed)
    requires OneToOne(r.matches) && forall m :: m in r.matches ==> Candidate(m, baseline, proposed)
    requires r.removed == Unmatched(baseline, BeforeKeys(r.matches)) && r.added == Unmatched(proposed, AfterKeys(r.matches))
    requires IsChangeSet(cs, baseline, proposed, r, table)
    ensures var removed, added := CountOf(cs.changes, Remove), CountOf(cs.changes, Add);
            var paired := |cs.changes| - removed - added;
            && cs.baselineCount == cs.untouched + paired + removed
            && cs.proposedCount == cs.untouched + paired + added
            && removed == |r.removed| && added == |r.added|
  {
    hide PairChanges, SortBy, OneToOne, Unmatched, UniqueKeys;
    MatchingPartitions(baseline, proposed, r);
    PairChangesAreValid(r.matches, table);
    var pairs := PairChanges(r.matches, table);
    var all := AllChanges(r, table);
    SortKeepsItems(all, ChangeAtMost);
    assert |multiset(cs.changes)| == |cs.changes| && |multiset(all)| == |all|;
    CountChanges(pairs, r.removed, r.added, Remove);
    CountChanges(pairs, r.removed, r.added, Add);
    CountIsOrderFree(cs.changes, all, Remove);
    CountIsOrderFree(cs.changes, all, Add);
  }

  lemma CountChanges(pairs: seq<ResourceChange>, removed: seq<Resource>, added: seq<Resource>, operation: Operation)
    requires forall c :: c in pairs ==> ValidChange(c) && c.how.Some? && c.before.Some? && c.after.Some?
    requires operation.Add? || operation.Remove?
    ensures CountOf(pairs + Each(removed, Removal) + Each(added, Addition), operation)
            == if operation.Add? then |added| else |removed|
  {
    CountOfPairs(pairs, operation);
    CountOfEach(removed, Removal, Remove, operation);
    CountOfEach(added, Addition, Add, operation);
    CountOfConcat(pairs, Each(removed, Removal), operation);
    CountOfConcat(pairs + Each(removed, Removal), Each(added, Addition), operation);
  }

  /** A graph compared with itself has changed nowhere. */
  lemma SelfCompareIsEmpty(g: seq<Resource>, cs: ChangeSet, r: MatchResult, table: MetadataTable)
    requires UniqueKeys(g) && NamesTellApart(g, g) && IsMatching(g, g, r) && IsChangeSet(cs, g, g, r, table)
    ensures cs.changes == [] && cs.untouched == |g|
  {
    hide PairUp, SelfMethod;
    SelfMatching(g, r);
    NoPairChanges(r.matches, table);
    MatchingPartitions(g, g, r);
    assert AllChanges(r, table) == [];
  }

  lemma {:induction false} NoPairChanges(ms: seq<Match>, table: MetadataTable)
    requires forall m :: m in ms ==> m.before == m.after
    ensures PairChanges(ms, table) == []
  {
    if ms != [] {
      NoPairChanges(ms[1..], table);
      assert ms[0] in ms;
      var x := ms[0].before;
      NoDeltasIffEqual(x.properties, x.properties, x.resourceType, table);
      assert ChangedPair(ms[0], table).None?;
    }
  }

  // ----- reading the comparison backwards -----

  function MirrorDelta(d: PropertyDelta): PropertyDelta {
    d.(before := d.after, after := d.before)
  }

  function MirrorDeltas(ds: seq<PropertyDelta>): seq<PropertyDelta> {
    seq(|ds|, i requires 0 <= i < |ds| => MirrorDelta(ds[i]))
  }

  /** The same change seen from the other side: what was added is removed, a pair keeps its
      operation, and a rename runs the other way. */
  function MirrorChange(c: ResourceChange): ResourceChange {
    ResourceChange(
      if c.previousKey.Some? then c.previousKey.value else c.key,
      c.resourceType,
      match c.operation case Add => Remove case Remove => Add case other => other,
      c.after, c.before,
      MirrorDeltas(c.changed),
      if c.previousKey.Some? then Some(c.key) else None,
      c.how, c.confidence)
  }

  function MirrorChanges(cs: seq<ResourceChange>): seq<ResourceChange> {
    seq(|cs|, i requires 0 <= i < |cs| => MirrorChange(cs[i]))
  }

  lemma {:induction false} DeltasMirror(before: Properties, after: Properties, resourceType: string, table: MetadataTable, paths: seq<string>)
    ensures FilterMap(paths, path => DeltaAt(path, after, before, resourceType, table))
            == MirrorDeltas(FilterMap(paths, path => DeltaAt(path, before, after, resourceType, table)))
    decreases |paths|
  {
    hide DeltaAt, MirrorDelta;
    var f := path => DeltaAt(path, before, after, resourceType, table);
    if paths == [] {
      assert MirrorDeltas(FilterMap(paths, f)) == [];
    } else {
      DeltasMirror(before, after, resourceType, table, paths[1..]);
      DeltaMirrors(paths[0], before, after, resourceType, table);
      var rest := FilterMap(paths[1..], f);
      if f(paths[0]).Some? {
        assert MirrorDeltas([f(paths[0]).value] + rest) == [MirrorDelta(f(paths[0]).value)] + MirrorDeltas(rest);
      }
    }
  }

  lemma DeltaMirrors(path: string, before: Properties, after: Properties, resourceType: string, table: MetadataTable)
    ensures var d, d' := DeltaAt(path, before, after, resourceType, table), DeltaAt(path, after, before, resourceType, table);
            d' == if d.Some? then Some(MirrorDelta(d.value)) else None
  {
    hide Describe, SameValue;
    SameValueSymmetric(At(before, path), At(after, path));
  }

  lemma SameValueSymmetric(x: Option<PropertyValue>, y: Option<PropertyValue>)
    ensures SameValue(x, y) == SameValue(y, x)
  {
  }

  lemma ClassifyMirrors(ds: seq<PropertyDelta>)
    ensures Classify(MirrorDeltas(ds)) == Classify(ds)
  {
    var ms := MirrorDeltas(ds);
    assert forall i :: 0 <= i < |ds| ==> ms[i].replacement == ds[i].replacement && ms[i].costRelevant == ds[i].costRelevant;
  }

  lemma ChangedPairMirrors(m: Match, table: MetadataTable)
    requires Pairable(m.before, m.after)
    ensures ChangedPair(Flip(m), table).Some? == ChangedPair(m, table).Some?
    ensures ChangedPair(m, table).Some? ==> ChangedPair(Flip(m), table).value == MirrorChange(ChangedPair(m, table).value)
  {
    hide FilterMap, Describe, Classify, PairChange;
    var before, after, t := m.before.properties, m.after.properties, m.after.resourceType;
    assert before.Keys + after.Keys == after.Keys + before.Keys;
    DeltasMirror(before, after, t, table, Arranged(before.Keys + after.Keys));
    var ds := Deltas(before, after, t, table);
    ClassifyMirrors(ds);
    assert Deltas(after, before, t, table) == MirrorDeltas(ds);
    assert MirrorDeltas(ds) == [] <==> ds == [];
    PairChangeMirrors(m, ds);
  }

  lemma PairChangeMirrors(m: Match, ds: seq<PropertyDelta>)
    requires Pairable(m.before, m.after) && Classify(MirrorDeltas(ds)) == Classify(ds)
    ensures var c, c' := PairChange(m, ds), PairChange(Flip(m), MirrorDeltas(ds));
            c.Some? == c'.Some? && (c.Some? ==> c'.value == MirrorChange(c.value))
  {
    var operation := Classify(ds);
    assert operation in {Replace, Modify, NoCostChange};
    if m.before.key.logicalId == m.after.key.logicalId { assert m.before.key == m.after.key; }
  }

  lemma {:induction false} PairChangesMirror(ms: seq<Match>, table: MetadataTable)
    requires forall m :: m in ms ==> Pairable(m.before, m.after)
    ensures PairChanges(FlipAll(ms), table) == MirrorChanges(PairChanges(ms, table))
    decreases |ms|
  {
    hide ChangedPair, MirrorChange;
    if ms == [] {
      assert FlipAll(ms) == [];
      assert MirrorChanges(PairChanges(ms, table)) == [];
    } else {
      assert ms[0] in ms;
      PairChangesMirror(ms[1..], table);
      ChangedPairMirrors(ms[0], table);
      assert FlipAll(ms) == [Flip(ms[0])] + FlipAll(ms[1..]);
      var rest := PairChanges(ms[1..], table);
      if ChangedPair(ms[0], table).Some? {
        assert MirrorChanges([ChangedPair(ms[0], table).value] + rest)
            == [MirrorChange(ChangedPair(ms[0], table).value)] + MirrorChanges(rest);
      }
    }
  }

  lemma MirrorParts(pairs: seq<ResourceChange>, removed: seq<Resource>, added: seq<Resource>)
    ensures multiset(MirrorChanges(pairs + Each(removed, Removal) + Each(added, Addition)))
            == multiset(MirrorChanges(pairs) + Each(added, Removal) + Each(removed, Addition))
  {
    var a, b := Each(removed, Removal), Each(added, Addition);
    assert MirrorChanges(pairs + a + b) == MirrorChanges(pairs) + MirrorChanges(a) + MirrorChanges(b);
    forall i | 0 <= i < |a| ensures MirrorChange(a[i]) == Addition(removed[i]) {
      assert MirrorDeltas([]) == [];
    }
    forall i | 0 <= i < |b| ensures MirrorChange(b[i]) == Removal(added[i]) {
      assert MirrorDeltas([]) == [];
    }
    assert MirrorChanges(a) == Each(removed, Addition);
    assert MirrorChanges(b) == Each(added, Removal);
  }

  lemma {:induction false} MirrorIsOrderFree(xs: seq<ResourceChange>, ys: seq<ResourceChange>)
    requires multiset(xs) == multiset(ys)
    ensures multiset(MirrorChanges(xs)) == multiset(MirrorChanges(ys))
    decreases |xs|
  {
    hide MirrorChange;
    assert |multiset(xs)| == |xs| && |multiset(ys)| == |ys|;
    if xs != [] {
      var i := TakeOut(xs, ys);
      var before, after := ys[..i], ys[i + 1..];
      MirrorIsOrderFree(xs[1..], before + after);
      assert MirrorChanges(xs) == [MirrorChange(xs[0])] + MirrorChanges(xs[1..]);
      assert MirrorChanges(before + after) == MirrorChanges(before) + MirrorChanges(after);
      assert MirrorChanges(ys) == MirrorChanges(before) + [MirrorChange(ys[i])] + MirrorChanges(after);
    }
  }

  /** Comparing the other way round reports the same changes, each mirrored, and the same number
      of untouched resources. */
  lemma CompareReverses(baseline: seq<Resource>, proposed: seq<Resource>, table: MetadataTable,
                        forward: ChangeSet, fr: MatchResult, backward: ChangeSet, br: MatchResult)
    requires IsMatching(baseline, proposed, fr) && IsMatching(proposed, baseline, br)
    requires IsChangeSet(forward, baseline, proposed, fr, table) && IsChangeSet(backward, proposed, baseline, br, table)
    ensures multiset(backward.changes) == multiset(MirrorChanges(forward.changes))
    ensures backward.untouched == forward.untouched
    ensures backward.baselineCount == forward.proposedCount && backward.proposedCount == forward.baselineCount
  {
    hide PairChanges, SortBy, FlipAll, MirrorChanges, Each;
    MatchingIsSwapSymmetric(baseline, proposed, fr, br);
    PairsReverse(baseline, proposed, fr.matches, br.matches, table);
    var fp, bp := PairChanges(fr.matches, table), PairChanges(br.matches, table);
    SortKeepsItems(AllChanges(fr, table), ChangeAtMost);
    SortKeepsItems(AllChanges(br, table), ChangeAtMost);
    MirrorIsOrderFree(forward.changes, AllChanges(fr, table));
    MirrorParts(fp, fr.removed, fr.added);
  }

  lemma PairsReverse(baseline: seq<Resource>, proposed: seq<Resource>, fms: seq<Match>, bms: seq<Match>, table: MetadataTable)
    requires forall m :: m in fms ==> Candidate(m, baseline, proposed)
    requires multiset(bms) == multiset(FlipAll(fms))
    ensures multiset(PairChanges(bms, table)) == multiset(MirrorChanges(PairChanges(fms, table)))
    ensures |bms| == |fms| && |PairChanges(bms, table)| == |PairChanges(fms, table)|
  {
    hide ChangedPair, MirrorChange;
    PairChangesMirror(fms, table);
    FilterMapIsOrderFree(bms, FlipAll(fms), m => ChangedPair(m, table));
    assert |multiset(bms)| == |bms| && |multiset(FlipAll(fms))| == |FlipAll(fms)| == |fms|;
    var b, f := PairChanges(bms, table), MirrorChanges(PairChanges(fms, table));
    assert |multiset(b)| == |b| && |multiset(f)| == |f|;
  }
}
