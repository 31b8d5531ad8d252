/** The curated property table, looked up by the longest matching pointer prefix. */
module Metadata {
  import opened Templates
  import opened Ordering
  import opened Pointers

  datatype Replacement = Never | Conditional | Always | Uncharted

  datatype PropertyMetadata = PropertyMetadata(costRelevant: bool, replacement: Replacement)

  datatype ResourceMetadata = ResourceMetadata(properties: map<string, PropertyMetadata>, costFree: bool)

  datatype MetadataTable = MetadataTable(defaults: map<string, PropertyMetadata>, types: map<string, ResourceMetadata>)

  function TypeProperties(table: MetadataTable, resourceType: string): map<string, PropertyMetadata> {
    if resourceType in table.types then table.types[resourceType].properties else map[]
  }

  /** What is said of a property no entry covers. */
  function Uncovered(table: MetadataTable, resourceType: string): PropertyMetadata {
    var costFree := resourceType in table.types && table.types[resourceType].costFree;
    PropertyMetadata(!costFree, Uncharted)
  }

  /** The entry for the longest prefix of at most `n` characters, a type's own entry first. */
  function Deepest(path: string, n: nat, specific: map<string, PropertyMetadata>, defaults: map<string, PropertyMetadata>): Option<PropertyMetadata>
    requires n <= |path|
    decreases n
  {
    var prefix := path[..n];
    if AtOrBelow(path, prefix) && prefix in specific then Some(specific[prefix])
    else if AtOrBelow(path, prefix) && prefix in defaults then Some(defaults[prefix])
    else if n == 0 then None
    else Deepest(path, n - 1, specific, defaults)
  }

  function Describe(table: MetadataTable, resourceType: string, path: string): PropertyMetadata {
    match Deepest(path, |path|, TypeProperties(table, resourceType), table.defaults)
    case Some(metadata) => metadata
    case None => Uncovered(table, resourceType)
  }

  datatype Found = Found(length: nat, specificity: nat, metadata: PropertyMetadata)

  predicate FoundAtMost(x: Found, y: Found) {
    x.length < y.length || (x.length == y.length && x.specificity <= y.specificity)
  }

  ghost predicate IsEntry(f: Found, source: map<string, PropertyMetadata>, specificity: nat, path: string) {
    && f.specificity == specificity
    && f.length <= |path|
    && path[..f.length] in source
    && AtOrBelow(path, path[..f.length])
    && f.metadata == source[path[..f.length]]
  }

  /** Gather the matching entries of one dictionary, in whatever order it yields its keys. */
  method CollectEntries(source: map<string, PropertyMetadata>, specificity: nat, path: string, candidates: seq<Found>)
    returns (found: seq<Found>)
    ensures forall f :: f in found <==> f in candidates || IsEntry(f, source, specificity, path)
  {
    found := candidates;
    var left := source.Keys;
    while left != {}
      invariant left <= source.Keys
      invariant forall f :: f in found <==>
                  f in candidates || (IsEntry(f, source, specificity, path) && path[..f.length] !in left)
      decreases |left|
    {
      var prefix :| prefix in left;
      if AtOrBelow(path, prefix) {
        assert prefix == path[..|prefix|];
        found := found + [Found(|prefix|, specificity, source[prefix])];
      }
      left := left - {prefix};
    }
  }

  method DescribeByCandidates(table: MetadataTable, resourceType: string, path: string) returns (r: PropertyMetadata)
    ensures r == Describe(table, resourceType, path)
  {
    hide Deepest, AtOrBelow, IsEntry, SortBy, Uncovered;
    var specific := TypeProperties(table, resourceType);
    var candidates := CollectEntries(table.defaults, 0, path, []);
    candidates := CollectEntries(specific, 1, path, candidates);
    if candidates == [] {
      NothingFound(path, |path|, specific, table.defaults);
      return Uncovered(table, resourceType);
    }
    var sorted := SortBy(candidates, FoundAtMost);
    LastIsGreatest(candidates, FoundAtMost);
    var last := sorted[|sorted| - 1];
    LastDescribes(last, candidates, path, specific, table.defaults);
    r := last.metadata;
  }

  lemma LastDescribes(last: Found, candidates: seq<Found>, path: string, specific: map<string, PropertyMetadata>, defaults: map<string, PropertyMetadata>)
    requires forall f :: f in candidates <==> IsEntry(f, defaults, 0, path) || IsEntry(f, specific, 1, path)
    requires last in candidates && forall f :: f in candidates ==> FoundAtMost(f, last)
    ensures Deepest(path, |path|, specific, defaults) == Some(last.metadata)
  {
    hide Deepest, AtOrBelow;
    GreatestIsDeepest(last, path, |path|, specific, defaults);
  }

  lemma {:induction false} NothingFound(path: string, n: nat, specific: map<string, PropertyMetadata>, defaults: map<string, PropertyMetadata>)
    requires n <= |path|
    requires forall f :: !IsEntry(f, specific, 1, path) && !IsEntry(f, defaults, 0, path)
    ensures Deepest(path, n, specific, defaults).None?
    decreases n
  {
    var prefix := path[..n];
    if AtOrBelow(path, prefix) && prefix in specific { assert IsEntry(Found(n, 1, specific[prefix]), specific, 1, path); }
    if AtOrBelow(path, prefix) && prefix in defaults { assert IsEntry(Found(n, 0, defaults[prefix]), defaults, 0, path); }
    if n > 0 { NothingFound(path, n - 1, specific, defaults); }
  }

  lemma {:induction false} GreatestIsDeepest(last: Found, path: string, n: nat, specific: map<string, PropertyMetadata>, defaults: map<string, PropertyMetadata>)
    requires last.length <= n <= |path|
    requires IsEntry(last, specific, 1, path) || IsEntry(last, defaults, 0, path)
    requires forall f :: IsEntry(f, specific, 1, path) || IsEntry(f, defaults, 0, path) ==> FoundAtMost(f, last)
    ensures Deepest(path, n, specific, defaults) == Some(last.metadata)
    decreases n
  {
    var prefix := path[..n];
    if AtOrBelow(path, prefix) && prefix in specific { assert IsEntry(Found(n, 1, specific[prefix]), specific, 1, path); }
    if AtOrBelow(path, prefix) && prefix in defaults { assert IsEntry(Found(n, 0, defaults[prefix]), defaults, 0, path); }
    if last.length < n { GreatestIsDeepest(last, path, n - 1, specific, defaults); }
  }

  /** Where no entry matches, a property is taken to cost something unless its type is declared
      free of cost, and nothing is said of replacement. */
  lemma UncoveredIsAssumedCostly(table: MetadataTable, resourceType: string, path: string)
    requires forall prefix :: AtOrBelow(path, prefix) ==>
               prefix !in table.defaults && (resourceType in table.types ==> prefix !in table.types[resourceType].properties)
    ensures var said := Describe(table, resourceType, path);
            && (said.costRelevant <==> resourceType in table.types ==> !table.types[resourceType].costFree)
            && said.replacement.Uncharted?
  {
    hide Deepest, AtOrBelow;
    NothingFound(path, |path|, TypeProperties(table, resourceType), table.defaults);
  }

  // ----- in terms of tokens -----

  ghost predicate AllPointers(source: map<string, PropertyMetadata>) {
    forall k :: k in source ==> exists qs :: k == PropertyPath(qs)
  }

  /** Of all entries above a property, the one with the most tokens describes it; a type's own
      entry beats a default for the same tokens. */
  lemma {:induction false} DeepestTokensWin(table: MetadataTable, resourceType: string, ts: seq<string>, ps: seq<string>)
    requires AllPointers(TypeProperties(table, resourceType)) && AllPointers(table.defaults)
    requires ps <= ts && (PropertyPath(ps) in TypeProperties(table, resourceType) || PropertyPath(ps) in table.defaults)
    requires forall qs :: qs <= ts && |qs| > |ps| ==>
               PropertyPath(qs) !in TypeProperties(table, resourceType) && PropertyPath(qs) !in table.defaults
    ensures Describe(table, resourceType, PropertyPath(ts))
            == if PropertyPath(ps) in TypeProperties(table, resourceType) then TypeProperties(table, resourceType)[PropertyPath(ps)]
               else table.defaults[PropertyPath(ps)]
  {
    hide PropertyPath, Deepest;
    var specific, path, key := TypeProperties(table, resourceType), PropertyPath(ts), PropertyPath(ps);
    AtOrBelowIsTokenPrefix(ts, ps);
    assert key == path[..|key|];
    var last := if key in specific then Found(|key|, 1, specific[key]) else Found(|key|, 0, table.defaults[key]);
    forall f | IsEntry(f, specific, 1, path) || IsEntry(f, table.defaults, 0, path)
      ensures FoundAtMost(f, last)
    {
      var k := path[..f.length];
      var qs :| k == PropertyPath(qs);
      NoLongerThan(ts, ps, qs);
    }
    GreatestIsDeepest(last, path, |path|, specific, table.defaults);
  }

  /** The same, told on the table: a type's own entries are the ones the table lists for it. */
  lemma DeepestTokensInFields(table: MetadataTable, resourceType: string, ts: seq<string>, ps: seq<string>)
    requires resourceType in table.types && AllPointers(table.types[resourceType].properties) && AllPointers(table.defaults)
    requires ps <= ts && (PropertyPath(ps) in table.types[resourceType].properties || PropertyPath(ps) in table.defaults)
    requires forall qs :: qs <= ts && |qs| > |ps| ==>
               PropertyPath(qs) !in table.types[resourceType].properties && PropertyPath(qs) !in table.defaults
    ensures Describe(table, resourceType, PropertyPath(ts))
            == if PropertyPath(ps) in table.types[resourceType].properties then table.types[resourceType].properties[PropertyPath(ps)]
               else table.defaults[PropertyPath(ps)]
  {
    hide PropertyPath, Describe;
    DeepestTokensWin(table, resourceType, ts, ps);
  }

  /** Of two token sequences above a property, the shorter one has the shorter pointer. */
  lemma {:induction false} NoLongerThan(ts: seq<string>, ps: seq<string>, qs: seq<string>)
    requires ps <= ts && AtOrBelow(PropertyPath(ts), PropertyPath(qs))
    ensures qs <= ts
    ensures |qs| <= |ps| ==> |PropertyPath(qs)| <= |PropertyPath(ps)|
    ensures |qs| <= |ps| && |PropertyPath(qs)| == |PropertyPath(ps)| ==> qs == ps
  {
    hide PropertyPath, AtOrBelow;
    AtOrBelowIsTokenPrefix(ts, qs);
    if |qs| <= |ps| {
      assert qs <= ps;
      AtOrBelowIsTokenPrefix(ps, qs);
      AboveIsNoLonger(PropertyPath(ps), PropertyPath(qs));
      if PropertyPath(qs) == PropertyPath(ps) { PropertyPathIsInjective(qs, ps); }
    }
  }

  lemma AboveIsNoLonger(path: string, prefix: string)
    requires AtOrBelow(path, prefix)
    ensures |prefix| <= |path| && (|prefix| == |path| ==> prefix == path)
  {
  }
}
