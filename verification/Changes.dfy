/** What each change of a change set says, told on its own fields. */
module Changes {
  import opened Templates
  import opened Ordering
  import opened Resources
  import opened Matching
  import opened Metadata
  import opened Diff
  import opened DiffLaws

  lemma {:induction false} FilterMapMembers<T, U>(xs: seq<T>, f: T -> Option<U>)
    ensures forall u :: u in FilterMap(xs, f) <==> exists x :: x in xs && f(x) == Some(u)
  {
    if xs != [] {
      FilterMapMembers(xs[1..], f);
      assert xs == [xs[0]] + xs[1..];
    }
  }

  // ----- the deltas of a pair -----

  /** A delta states both values of its path and what the curated table says of it. */
  ghost predicate Tells(d: PropertyDelta, before: Properties, after: Properties, resourceType: string, table: MetadataTable) {
    && d.before == At(before, d.path) && d.after == At(after, d.path) && !SameValue(d.before, d.after)
    && d.costRelevant == Describe(table, resourceType, d.path).costRelevant
    && d.replacement == Describe(table, resourceType, d.path).replacement
  }

  /** Exactly the paths whose values differ have a delta, and they come in ascending order. */
  ghost predicate TellsAll(ds: seq<PropertyDelta>, before: Properties, after: Properties, resourceType: string, table: MetadataTable) {
    && (forall d :: d in ds ==> Tells(d, before, after, resourceType, table))
    && (forall p :: !SameValue(At(before, p), At(after, p)) <==> exists d :: d in ds && d.path == p)
    && Ascending(ds)
  }

  ghost predicate Ascending(ds: seq<PropertyDelta>) {
    forall i, j :: 0 <= i < j < |ds| ==> TextLess(ds[i].path, ds[j].path)
  }

  lemma {:induction false} DeltasAscend(before: Properties, after: Properties, resourceType: string, table: MetadataTable, paths: seq<string>)
    requires forall i, j :: 0 <= i < j < |paths| ==> TextLess(paths[i], paths[j])
    ensures Ascending(FilterMap(paths, path => DeltaAt(path, before, after, resourceType, table)))
  {
    hide DeltaAt, TextLess, Ascending;
    var f := path => DeltaAt(path, before, after, resourceType, table);
    if paths == [] {
      assert Ascending(FilterMap(paths, f)) by { NothingAscends(); }
    } else {
      var rest := paths[1..];
      assert forall i :: 0 <= i < |rest| ==> rest[i] == paths[i + 1];
      DeltasAscend(before, after, resourceType, table, rest);
      var more := FilterMap(rest, f);
      forall d | d in more
        ensures TextLess(paths[0], d.path)
      {
        FilterMapMembers(rest, f);
        var p :| p in rest && f(p) == Some(d);
        DeltaHasPath(p, before, after, resourceType, table);
        var k :| 0 <= k < |rest| && rest[k] == p;
        assert TextLess(paths[0], paths[k + 1]);
      }
      DeltaHasPath(paths[0], before, after, resourceType, table);
      if f(paths[0]).Some? { AscendsAhead(f(paths[0]).value, more); }
      assert FilterMap(paths, f) == (match f(paths[0]) case None => [] case Some(d) => [d]) + more;
      assert [] + more == more;
    }
  }

  lemma NothingAscends()
    ensures Ascending([])
  {
  }

  lemma AscendsAhead(d: PropertyDelta, more: seq<PropertyDelta>)
    requires Ascending(more) && forall e :: e in more ==> TextLess(d.path, e.path)
    ensures Ascending([d] + more)
  {
    hide TextLess;
    assert forall i :: 0 <= i < |more| ==> ([d] + more)[i + 1] == more[i] && more[i] in more;
  }

  lemma DeltaHasPath(p: string, before: Properties, after: Properties, resourceType: string, table: MetadataTable)
    ensures var d := DeltaAt(p, before, after, resourceType, table);
            d.Some? ==> d.value.path == p && Tells(d.value, before, after, resourceType, table)
  {
    hide SameValue, Describe;
  }

  lemma DeltasTellAll(before: Properties, after: Properties, resourceType: string, table: MetadataTable)
    ensures TellsAll(Deltas(before, after, resourceType, table), before, after, resourceType, table)
  {
    hide Arranged, Describe, SameValue, TextLess, DeltaAt, Tells;
    var paths := Arranged(before.Keys + after.Keys);
    ArrangedMembers(before.Keys + after.Keys);
    ArrangedAscends(before.Keys + after.Keys);
    DeltasAscend(before, after, resourceType, table, paths);
    DeltasDescribe(before, after, resourceType, table, paths);
    var ds := Deltas(before, after, resourceType, table);
    forall d | d in ds
      ensures Tells(d, before, after, resourceType, table)
    {
      DeltaHasPath(d.path, before, after, resourceType, table);
    }
    forall p | !SameValue(At(before, p), At(after, p))
      ensures p in paths
    {
      DifferentMeansPresent(before, after, p);
    }
    forall d | d in ds
      ensures !SameValue(At(before, d.path), At(after, d.path))
    {
      DeltaMeansDifferent(d, before, after, resourceType, table);
    }
  }

  lemma DeltaMeansDifferent(d: PropertyDelta, before: Properties, after: Properties, resourceType: string, table: MetadataTable)
    requires Tells(d, before, after, resourceType, table)
    ensures !SameValue(At(before, d.path), At(after, d.path))
  {
    hide SameValue;
  }

  lemma DifferentMeansPresent(before: Properties, after: Properties, p: string)
    requires !SameValue(At(before, p), At(after, p))
    ensures p in before.Keys + after.Keys
  {
    BothAbsentIsSame();
  }

  /** Sorted without repeats: strictly ascending. */
  lemma ArrangedAscends(s: set<string>)
    ensures forall i, j :: 0 <= i < j < |Arranged(s)| ==> TextLess(Arranged(s)[i], Arranged(s)[j])
  {
    hide Arranged, TextLess;
    ArrangedIsSorted(s);
    ArrangedMembers(s);
    var xs := Arranged(s);
    forall i, j | 0 <= i < j < |xs|
      ensures TextLess(xs[i], xs[j])
    {
      assert TextAtMost(xs[i], xs[j]);
      TextLessTotal(xs[i], xs[j]);
      NotRepeated(s, i, j);
    }
  }

  lemma NotRepeated(s: set<string>, i: nat, j: nat)
    requires i < j < |Arranged(s)|
    ensures Arranged(s)[i] != Arranged(s)[j]
  {
    hide Arranged;
    ArrangedMembers(s);
    if Arranged(s)[i] == Arranged(s)[j] { OccursTwice(Arranged(s), i, j); }
  }

  lemma OccursTwice(xs: seq<string>, i: nat, j: nat)
    requires i < j < |xs| && xs[i] == xs[j]
    ensures multiset(xs)[xs[i]] >= 2
  {
    var front, back := xs[..j], xs[j..];
    assert xs == front + back && front[i] == xs[i] && back[0] == xs[i];
    assert xs[i] in multiset(front) && xs[i] in multiset(back);
  }

  // ----- one change -----

  /** A resource that is replaced, one that only changes in ways that cost nothing, and the rest. */
  ghost predicate OperationFits(c: ResourceChange, renamed: bool) {
    var forced, costs := exists d :: d in c.changed && d.replacement.Always?, exists d :: d in c.changed && d.costRelevant;
    && (c.operation.Replace? <==> forced)
    && (c.operation.NoCostChange? <==> !forced && !costs && !renamed)
    && (c.operation.Modify? <==> !forced && (costs || renamed))
  }

  /** What a change says of a pair. */
  ghost predicate SpeaksOf(c: ResourceChange, b: Resource, a: Resource, how: MatchMethod, table: MetadataTable) {
    var renamed := b.key.logicalId != a.key.logicalId;
    && c.before == Some(b) && c.after == Some(a) && c.key == a.key && c.resourceType == a.resourceType
    && TellsAll(c.changed, b.properties, a.properties, a.resourceType, table)
    && OperationFits(c, renamed)
    && c.previousKey == (if renamed then Some(b.key) else None)
    && c.how == Some(how) && (if how.Heuristic? then c.confidence.Low? else c.confidence.High?)
  }

  /** The two sides differ in name or in some property. */
  ghost predicate Differs(m: Match) {
    || m.before.key.logicalId != m.after.key.logicalId
    || exists p :: !SameValue(At(m.before.properties, p), At(m.after.properties, p))
  }

  lemma PairChangeSpeaks(m: Match, table: MetadataTable)
    ensures var c := ChangedPair(m, table);
            && (c.Some? ==> SpeaksOf(c.value, m.before, m.after, m.how, table))
            && (c.Some? <==> Differs(m))
  {
    hide Deltas, TellsAll, SameValue;
    var ds := Deltas(m.before.properties, m.after.properties, m.after.resourceType, table);
    DeltasTellAll(m.before.properties, m.after.properties, m.after.resourceType, table);
    DeltasExist(ds, m.before.properties, m.after.properties, m.after.resourceType, table);
    ClassifiedMembers(ds);
  }

  lemma DeltasExist(ds: seq<PropertyDelta>, before: Properties, after: Properties, resourceType: string, table: MetadataTable)
    requires TellsAll(ds, before, after, resourceType, table)
    ensures ds != [] <==> exists p :: !SameValue(At(before, p), At(after, p))
  {
    hide SameValue, TextLess, Tells;
    if ds != [] {
      assert ds[0] in ds;
      assert !SameValue(At(before, ds[0].path), At(after, ds[0].path));
    }
  }

  lemma ClassifiedMembers(ds: seq<PropertyDelta>)
    ensures (exists i :: 0 <= i < |ds| && ds[i].replacement.Always?) <==> exists d :: d in ds && d.replacement.Always?
    ensures (exists i :: 0 <= i < |ds| && ds[i].costRelevant) <==> exists d :: d in ds && d.costRelevant
  {
    if i :| 0 <= i < |ds| && ds[i].replacement.Always? { assert ds[i] in ds; }
    if i :| 0 <= i < |ds| && ds[i].costRelevant { assert ds[i] in ds; }
  }

  // ----- the whole change set -----

  /** A change with two sides speaks of a matched pair, one with a single side of a resource that
      was removed or added and says nothing else. */
  lemma EveryChangeSpeaks(cs: ChangeSet, baseline: seq<Resource>, proposed: seq<Resource>, r: MatchResult, table: MetadataTable, c: ResourceChange)
    requires IsChangeSet(cs, baseline, proposed, r, table) && c in cs.changes
    ensures c.before.Some? && c.after.Some? ==>
              exists m :: m in r.matches && SpeaksOf(c, m.before, m.after, m.how, table)
    ensures c.after.None? ==> c.before.Some? && c.before.value in r.removed && SpeaksAlone(c, c.before.value, Remove)
    ensures c.before.None? ==> c.after.Some? && c.after.value in r.added && SpeaksAlone(c, c.after.value, Add)
  {
    hide SortBy, SpeaksOf, ChangeAtMost, ChangedPair, SpeaksAlone, Removal, Addition;
    SortKeepsItems(AllChanges(r, table), ChangeAtMost);
    assert c in multiset(cs.changes) && c in multiset(AllChanges(r, table));
    FilterMapMembers(r.matches, m => ChangedPair(m, table));
    if m :| m in r.matches && ChangedPair(m, table) == Some(c) {
      PairChangeSpeaks(m, table);
      HasBothSides(m, table);
    } else if c in Each(r.removed, Removal) {
      var i :| 0 <= i < |r.removed| && c == Removal(r.removed[i]);
      SinglesSpeak(r.removed[i]);
    } else {
      var i :| 0 <= i < |r.added| && c == Addition(r.added[i]);
      SinglesSpeak(r.added[i]);
    }
  }

  /** What a change says of a resource that exists on one side only. */
  predicate SpeaksAlone(c: ResourceChange, x: Resource, operation: Operation) {
    && c.operation == operation && c.key == x.key && c.resourceType == x.resourceType
    && c.changed == [] && c.previousKey.None? && c.how.None? && c.confidence.High?
  }

  lemma SinglesSpeak(x: Resource)
    ensures SpeaksAlone(Removal(x), x, Remove) && Removal(x).before == Some(x) && Removal(x).after.None?
    ensures SpeaksAlone(Addition(x), x, Add) && Addition(x).after == Some(x) && Addition(x).before.None?
  {
  }

  lemma HasBothSides(m: Match, table: MetadataTable)
    ensures ChangedPair(m, table).Some? ==> ChangedPair(m, table).value.before.Some? && ChangedPair(m, table).value.after.Some?
  {
    hide Deltas, Classify;
  }

  /** And nothing that changed goes unmentioned. */
  lemma NothingGoesUnmentioned(cs: ChangeSet, baseline: seq<Resource>, proposed: seq<Resource>, r: MatchResult, table: MetadataTable)
    requires IsChangeSet(cs, baseline, proposed, r, table)
    ensures forall m :: m in r.matches && Differs(m) ==> exists c :: c in cs.changes && SpeaksOf(c, m.before, m.after, m.how, table)
    ensures forall x :: x in r.removed ==> exists c :: c in cs.changes && c.before == Some(x) && c.after.None?
    ensures forall x :: x in r.added ==> exists c :: c in cs.changes && c.after == Some(x) && c.before.None?
  {
    hide SortBy, SpeaksOf, ChangeAtMost, Differs, ChangedPair;
    SortKeepsItems(AllChanges(r, table), ChangeAtMost);
    assert forall c :: c in AllChanges(r, table) <==> c in multiset(cs.changes);
    FilterMapMembers(r.matches, m => ChangedPair(m, table));
    forall m | m in r.matches && Differs(m)
      ensures exists c :: c in cs.changes && SpeaksOf(c, m.before, m.after, m.how, table)
    {
      PairChangeSpeaks(m, table);
      var c := ChangedPair(m, table).value;
      assert c in PairChanges(r.matches, table) && c in AllChanges(r, table);
    }
    forall x | x in r.removed
      ensures exists c :: c in cs.changes && c.before == Some(x) && c.after.None?
    {
      EachMember(r.removed, Removal, x);
      assert Removal(x) in AllChanges(r, table) && Removal(x) in cs.changes;
    }
    forall x | x in r.added
      ensures exists c :: c in cs.changes && c.after == Some(x) && c.before.None?
    {
      EachMember(r.added, Addition, x);
      assert Addition(x) in AllChanges(r, table) && Addition(x) in cs.changes;
    }
  }

  lemma EachMember(xs: seq<Resource>, f: Resource -> ResourceChange, x: Resource)
    requires x in xs
    ensures f(x) in Each(xs, f)
  {
    var i :| 0 <= i < |xs| && xs[i] == x;
    assert Each(xs, f)[i] == f(x);
  }

  lemma ChangesRank()
    ensures Ranks(ChangeAtMost)
  {
    hide ChangeAtMost;
    forall x: ResourceChange, y: ResourceChange
      ensures ChangeAtMost(x, y) || ChangeAtMost(y, x)
    {
      EitherWay(x, y);
    }
    forall x: ResourceChange, y: ResourceChange, z: ResourceChange | ChangeAtMost(x, y) && ChangeAtMost(y, z)
      ensures ChangeAtMost(x, z)
    {
      OneAfterAnother(x, y, z);
    }
  }

  lemma EitherWay(x: ResourceChange, y: ResourceChange)
    ensures ChangeAtMost(x, y) || ChangeAtMost(y, x)
  {
    hide TextLess, TextAtMost;
    TextRanks();
    TextLessTotal(x.key.stack, y.key.stack);
    TextLessTotal(x.resourceType, y.resourceType);
  }

  lemma OneAfterAnother(x: ResourceChange, y: ResourceChange, z: ResourceChange)
    requires ChangeAtMost(x, y) && ChangeAtMost(y, z)
    ensures ChangeAtMost(x, z)
  {
    hide TextLess, TextAtMost;
    TextRanks();
    if TextLess(x.key.stack, y.key.stack) && TextLess(y.key.stack, z.key.stack) {
      TextLessTransitive(x.key.stack, y.key.stack, z.key.stack);
    }
    if TextLess(x.resourceType, y.resourceType) && TextLess(y.resourceType, z.resourceType) {
      TextLessTransitive(x.resourceType, y.resourceType, z.resourceType);
    }
  }

  /** The changes come by stack, then type, then logical ID. */
  lemma ChangesAreListedInOrder(cs: ChangeSet, baseline: seq<Resource>, proposed: seq<Resource>, r: MatchResult, table: MetadataTable, i: nat, j: nat)
    requires IsChangeSet(cs, baseline, proposed, r, table) && i < j < |cs.changes|
    ensures var x, y := cs.changes[i], cs.changes[j];
            && TextAtMost(x.key.stack, y.key.stack)
            && (x.key.stack == y.key.stack ==> TextAtMost(x.resourceType, y.resourceType))
            && (x.key.stack == y.key.stack && x.resourceType == y.resourceType ==> TextAtMost(x.key.logicalId, y.key.logicalId))
  {
    hide SortBy, TextLess, AllChanges;
    ChangesRank();
    SortSorts(AllChanges(r, table), ChangeAtMost);
    var x, y := cs.changes[i], cs.changes[j];
    assert ChangeAtMost(x, y);
    InWords(x, y);
  }

  lemma InWords(x: ResourceChange, y: ResourceChange)
    requires ChangeAtMost(x, y)
    ensures TextAtMost(x.key.stack, y.key.stack)
    ensures x.key.stack == y.key.stack ==> TextAtMost(x.resourceType, y.resourceType)
    ensures x.key.stack == y.key.stack && x.resourceType == y.resourceType ==> TextAtMost(x.key.logicalId, y.key.logicalId)
  {
    hide TextLess;
    var sx, sy, tx, ty := x.key.stack, y.key.stack, x.resourceType, y.resourceType;
    if TextLess(sx, sy) { TextLessAsymmetric(sx, sy); }
    if TextLess(tx, ty) { TextLessAsymmetric(tx, ty); }
    TextLessIrreflexive(sx);
    TextLessIrreflexive(tx);
  }

  // ----- when values are the same -----

  /** Scalars are the same when they are equal, or one is a boolean and the other the integer that
      stands for it. */
  predicate SameScalar(x: Scalar, y: Scalar) {
    || x == y
    || (x == Bool(true) && y == Int(1)) || (x == Int(1) && y == Bool(true))
    || (x == Bool(false) && y == Int(0)) || (x == Int(0) && y == Bool(false))
  }

  lemma CanonInFields(x: Scalar, y: Scalar)
    ensures CanonScalar(x) == CanonScalar(y) <==> SameScalar(x, y)
  {
  }

  ghost predicate SameProperty(v: PropertyValue, w: PropertyValue) {
    match (v, w)
    case (Resolved(x, p), Resolved(y, q)) => SameScalar(x, y) && p == q
    case (ResourceRef(id, a), ResourceRef(id', a')) => id == id' && a == a'
    case (Unresolved(k, text, xs), Unresolved(k', text', ys)) =>
      k == k' && text == text' && |xs| == |ys| && forall i :: 0 <= i < |xs| ==> SameScalar(xs[i], ys[i])
    case _ => false
  }

  /** Property values are the same field by field, evidence included. */
  lemma SameValueInFields(v: Option<PropertyValue>, w: Option<PropertyValue>)
    ensures SameValue(v, w) <==> (v.None? && w.None?) || (v.Some? && w.Some? && SameProperty(v.value, w.value))
  {
    hide CanonScalar, SameScalar;
    forall x, y ensures CanonScalar(x) == CanonScalar(y) <==> SameScalar(x, y) { CanonInFields(x, y); }
    if v.Some? && w.Some? && v.value.Unresolved? && w.value.Unresolved? {
      var xs, ys := v.value.scenarios, w.value.scenarios;
      ScenariosInFields(xs, ys);
    }
  }

  lemma ScenariosInFields(xs: seq<Scalar>, ys: seq<Scalar>)
    ensures seq(|xs|, i requires 0 <= i < |xs| => CanonScalar(xs[i])) == seq(|ys|, i requires 0 <= i < |ys| => CanonScalar(ys[i]))
            <==> |xs| == |ys| && forall i :: 0 <= i < |xs| ==> CanonScalar(xs[i]) == CanonScalar(ys[i])
  {
    hide CanonScalar;
    var cx := seq(|xs|, i requires 0 <= i < |xs| => CanonScalar(xs[i]));
    var cy := seq(|ys|, i requires 0 <= i < |ys| => CanonScalar(ys[i]));
    assert |cx| == |xs| && |cy| == |ys|;
    if cx == cy {
      forall i | 0 <= i < |xs| ensures CanonScalar(xs[i]) == CanonScalar(ys[i]) { assert cx[i] == cy[i]; }
    }
  }
}
