/** From two graphs to a change set. */
module Diff {
  import opened Templates
  import opened Ordering
  import opened Resources
  import opened Matching
  import opened Metadata
  import opened Lattices

  // ----- values compare as the host language compares them -----

  /** A boolean equals the integer it stands for. */
  function CanonScalar(s: Scalar): Scalar {
    if s.Bool? then Int(if s.b then 1 else 0) else s
  }

  function Canon(v: PropertyValue): PropertyValue {
    match v
    case Resolved(s, provenance) => Resolved(CanonScalar(s), provenance)
    case ResourceRef(_, _) => v
    case Unresolved(kind, detail, scenarios) =>
      Unresolved(kind, detail, seq(|scenarios|, i requires 0 <= i < |scenarios| => CanonScalar(scenarios[i])))
  }

  predicate SameValue(x: Option<PropertyValue>, y: Option<PropertyValue>) {
    match (x, y)
    case (None, None) => true
    case (Some(v), Some(w)) => Canon(v) == Canon(w)
    case _ => false
  }

  function At(properties: map<string, PropertyValue>, path: string): Option<PropertyValue> {
    if path in properties then Some(properties[path]) else None
  }

  // ----- property deltas -----

  datatype PropertyDelta = PropertyDelta(
    path: string,
    before: Option<PropertyValue>,
    after: Option<PropertyValue>,
    costRelevant: bool,
    replacement: Replacement)

  /** The validator of a delta. */
  predicate ValidDelta(d: PropertyDelta) {
    !(d.before.None? && d.after.None?) && !SameValue(d.before, d.after)
  }

  ghost predicate IsLeast(least: string, s: set<string>) {
    least in s && forall x :: x in s ==> TextAtMost(least, x)
  }

  lemma {:induction false} LeastExists(s: set<string>)
    requires s != {}
    ensures exists least :: IsLeast(least, s)
    decreases |s|
  {
    var m :| m in s;
    TextRanks();
    if s == {m} {
      assert IsLeast(m, s);
    } else {
      LeastExists(s - {m});
      var rest :| IsLeast(rest, s - {m});
      assert forall x :: x in s && x != m ==> x in s - {m};
      assert IsLeast(if TextAtMost(m, rest) then m else rest, s);
    }
  }

  ghost function Least(s: set<string>): (least: string)
    requires s != {}
    ensures IsLeast(least, s)
  {
    LeastExists(s);
    var least :| IsLeast(least, s);
    least
  }

  /** The members of a set in ascending order. */
  ghost function Arranged(s: set<string>): seq<string>
    decreases |s|
  {
    if s == {} then [] else [Least(s)] + Arranged(s - {Least(s)})
  }

  lemma {:induction false} ArrangedMembers(s: set<string>)
    ensures forall x :: multiset(Arranged(s))[x] == if x in s then 1 else 0
    ensures forall x :: x in Arranged(s) <==> x in s
    decreases |s|
  {
    hide IsLeast;
    if s != {} {
      var least, rest := Least(s), s - {Least(s)};
      LeastIsMember(s);
      ArrangedMembers(rest);
      assert multiset(Arranged(s)) == multiset{least} + multiset(Arranged(rest));
      assert forall x :: x in Arranged(s) <==> x in multiset(Arranged(s));
    }
  }

  lemma LeastIsMember(s: set<string>)
    requires s != {}
    ensures Least(s) in s && forall x :: x in s ==> TextAtMost(Least(s), x)
  {
  }

  lemma {:induction false} ArrangedIsSorted(s: set<string>)
    ensures SortedBy(Arranged(s), TextAtMost)
    decreases |s|
  {
    hide TextAtMost, IsLeast;
    if s != {} {
      var rest := s - {Least(s)};
      LeastIsMember(s);
      ArrangedIsSorted(rest);
      ArrangedMembers(rest);
      var tail := Arranged(rest);
      assert Arranged(s) == [Least(s)] + tail;
      forall j | 0 <= j < |tail| ensures TextAtMost(Least(s), tail[j]) {
        assert tail[j] in rest;
      }
    }
  }

  /** Sorting a set's members, however the set yields them. */
  method SortedPaths(s: set<string>) returns (paths: seq<string>)
    ensures paths == Arranged(s)
  {
    hide SortBy, Arranged;
    var listed: seq<string>, left := [], s;
    while left != {}
      invariant left <= s
      invariant forall x :: multiset(listed)[x] == if x in s - left then 1 else 0
      decreases |left|
    {
      var x :| x in left;
      assert multiset(listed + [x]) == multiset(listed) + multiset{x};
      listed, left := listed + [x], left - {x};
    }
    paths := SortBy(listed, TextAtMost);
    SortingArranges(listed, s);
  }

  lemma SortingArranges(listed: seq<string>, s: set<string>)
    requires forall x :: multiset(listed)[x] == if x in s then 1 else 0
    ensures SortBy(listed, TextAtMost) == Arranged(s)
  {
    hide SortBy, Arranged, TextLess;
    var paths := SortBy(listed, TextAtMost);
    SortKeepsItems(listed, TextAtMost);
    SortSorts(listed, TextAtMost) by { TextRanks(); }
    ArrangedIsSorted(s);
    ArrangedMembers(s);
    assert multiset(paths) == multiset(Arranged(s));
    forall i, j | 0 <= i < |paths| && 0 <= j < |paths| && TextAtMost(paths[i], paths[j]) && TextAtMost(paths[j], paths[i])
      ensures paths[i] == paths[j]
    {
      TextLessTotal(paths[i], paths[j]);
    }
    SortedIsUnique(paths, Arranged(s), TextAtMost);
  }

  function DeltaAt(path: string, before: map<string, PropertyValue>, after: map<string, PropertyValue>,
                   resourceType: string, table: MetadataTable): Option<PropertyDelta> {
    if SameValue(At(before, path), At(after, path)) then None
    else
      var described := Describe(table, resourceType, path);
      Some(PropertyDelta(path, At(before, path), At(after, path), described.costRelevant, described.replacement))
  }

  ghost function Deltas(before: map<string, PropertyValue>, after: map<string, PropertyValue>,
                        resourceType: string, table: MetadataTable): seq<PropertyDelta> {
    FilterMap(Arranged(before.Keys + after.Keys), path => DeltaAt(path, before, after, resourceType, table))
  }

  method PropertyDeltas(before: map<string, PropertyValue>, after: map<string, PropertyValue>,
                        resourceType: string, table: MetadataTable) returns (deltas: seq<PropertyDelta>)
    ensures deltas == Deltas(before, after, resourceType, table)
  {
    hide Describe, SameValue, Arranged, FilterMap;
    var paths := SortedPaths(before.Keys + after.Keys);
    ghost var f := path => DeltaAt(path, before, after, resourceType, table);
    deltas := [];
    FilterMapEnds(paths, f, deltas);
    for i := 0 to |paths|
      invariant deltas + FilterMap(paths[i..], f) == FilterMap(paths, f)
    {
      var path := paths[i];
      var was, now := At(before, path), At(after, path);
      FilterMapStep(paths, i, f, deltas);
      if SameValue(was, now) {
        continue;
      }
      var described := DescribeByCandidates(table, resourceType, path);
      var delta := PropertyDelta(path, was, now, described.costRelevant, described.replacement);
      deltas := deltas + [delta];
    }
    FilterMapEnds(paths, f, deltas);
  }

  // ----- changes -----

  datatype Operation = Add | Remove | Modify | Replace | NoCostChange

  function MatchConfidence(how: MatchMethod): Confidence {
    if how.Heuristic? then Low else High
  }

  /** `how` is None for a resource that was not paired. */
  datatype ResourceChange = ResourceChange(
    key: ResourceKey,
    resourceType: string,
    operation: Operation,
    before: Option<Resource>,
    after: Option<Resource>,
    changed: seq<PropertyDelta>,
    previousKey: Option<ResourceKey>,
    how: Option<MatchMethod>,
    confidence: Confidence)

  /** The validator of a change. */
  predicate ValidChange(c: ResourceChange) {
    && (match c.operation
        case Add => c.before.None? && c.after.Some?
        case Remove => c.before.Some? && c.after.None?
        case _ => c.before.Some? && c.after.Some?)
    && (c.before.Some? ==> c.before.value.key == c.key || c.previousKey == Some(c.before.value.key))
    && c.previousKey != Some(c.key)
    && (c.after.Some? ==> c.after.value.key == c.key)
    && (c.how.None? ==> c.operation.Add? || c.operation.Remove?)
  }

  function Classify(deltas: seq<PropertyDelta>): Operation {
    if exists i :: 0 <= i < |deltas| && deltas[i].replacement.Always? then Replace
    else if exists i :: 0 <= i < |deltas| && deltas[i].costRelevant then Modify
    else NoCostChange
  }

  /** The change a pair amounts to, given its deltas. */
  function PairChange(m: Match, deltas: seq<PropertyDelta>): Option<ResourceChange> {
    var renamed := m.before.key.logicalId != m.after.key.logicalId;
    if deltas == [] && !renamed then None
    else
      var operation := Classify(deltas);
      Some(ResourceChange(
        m.after.key, m.after.resourceType,
        if renamed && operation.NoCostChange? then Modify else operation,
        Some(m.before), Some(m.after), deltas,
        if renamed then Some(m.before.key) else None,
        Some(m.how), MatchConfidence(m.how)))
  }

  ghost function ChangedPair(m: Match, table: MetadataTable): Option<ResourceChange> {
    PairChange(m, Deltas(m.before.properties, m.after.properties, m.after.resourceType, table))
  }

  function Removal(x: Resource): ResourceChange {
    ResourceChange(x.key, x.resourceType, Remove, Some(x), None, [], None, None, High)
  }

  function Addition(x: Resource): ResourceChange {
    ResourceChange(x.key, x.resourceType, Add, None, Some(x), [], None, None, High)
  }

  function Each(xs: seq<Resource>, f: Resource -> ResourceChange): seq<ResourceChange> {
    seq(|xs|, i requires 0 <= i < |xs| => f(xs[i]))
  }

  /** Stack, then type, then logical ID. */
  predicate ChangeAtMost(x: ResourceChange, y: ResourceChange) {
    var sx, sy, tx, ty := x.key.stack, y.key.stack, x.resourceType, y.resourceType;
    || TextLess(sx, sy)
    || (sx == sy && (TextLess(tx, ty) || (tx == ty && TextAtMost(x.key.logicalId, y.key.logicalId))))
  }

  datatype ChangeSet = ChangeSet(changes: seq<ResourceChange>, untouched: nat, baselineCount: nat, proposedCount: nat)

  ghost function PairChanges(ms: seq<Match>, table: MetadataTable): seq<ResourceChange> {
    FilterMap(ms, m => ChangedPair(m, table))
  }

  ghost function AllChanges(r: MatchResult, table: MetadataTable): seq<ResourceChange> {
    PairChanges(r.matches, table) + Each(r.removed, Removal) + Each(r.added, Addition)
  }

  /** A change set for a given matching. */
  ghost predicate IsChangeSet(cs: ChangeSet, baseline: seq<Resource>, proposed: seq<Resource>, r: MatchResult, table: MetadataTable) {
    && cs.changes == SortBy(AllChanges(r, table), ChangeAtMost)
    && cs.untouched == |r.matches| - |PairChanges(r.matches, table)|
    && cs.baselineCount == |baseline|
    && cs.proposedCount == |proposed|
  }

  /** A change set and the matching behind it, which is the stable one whenever rendered keys
      tell resources apart. */
  ghost predicate Compares(cs: ChangeSet, baseline: seq<Resource>, proposed: seq<Resource>, r: MatchResult, table: MetadataTable) {
    && (NamesTellApart(baseline, proposed) ==> IsMatching(baseline, proposed, r))
    && OneToOne(r.matches) && (forall m :: m in r.matches ==> Candidate(m, baseline, proposed))
    && r.removed == Unmatched(baseline, BeforeKeys(r.matches)) && r.added == Unmatched(proposed, AfterKeys(r.matches))
    && IsChangeSet(cs, baseline, proposed, r, table)
  }

  method Compare(baseline: seq<Resource>, proposed: seq<Resource>, table: MetadataTable) returns (cs: ChangeSet)
    requires UniqueKeys(baseline) && UniqueKeys(proposed)
    ensures exists r :: Compares(cs, baseline, proposed, r, table)
  {
    hide IsMatching, SortBy, Unmatched, SortedBy, FilterMap, PairChange, Deltas, OneToOne, Candidate;
    var result := MatchResources(baseline, proposed);
    var changes: seq<ResourceChange>, untouched: nat := [], 0;
    ghost var f := m => ChangedPair(m, table);
    FilterMapEnds(result.matches, f, changes);
    for i := 0 to |result.matches|
      invariant changes + FilterMap(result.matches[i..], f) == FilterMap(result.matches, f)
      invariant untouched + |changes| == i
    {
      var m := result.matches[i];
      FilterMapStep(result.matches, i, f, changes);
      var deltas := PropertyDeltas(m.before.properties, m.after.properties, m.after.resourceType, table);
      var change := PairChange(m, deltas);
      assert change == f(m);
      if change.None? {
        untouched := untouched + 1;
      } else {
        changes := changes + [change.value];
      }
    }
    FilterMapEnds(result.matches, f, changes);
    assert changes == PairChanges(result.matches, table);
    changes := changes + Each(result.removed, Removal);
    changes := changes + Each(result.added, Addition);
    cs := ChangeSet(SortBy(changes, ChangeAtMost), untouched, |baseline|, |proposed|);
    assert Compares(cs, baseline, proposed, result, table);
  }
}
