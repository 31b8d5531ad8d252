/** Normalised resources and graphs. */
module Resources {
  import opened Templates

  datatype ResourceKey = ResourceKey(stack: string, logicalId: string)

  /** `stack/LogicalId`. */
  function KeyText(key: ResourceKey): string {
    key.stack + "/" + key.logicalId
  }

  /** The reason and the expression of an unresolved value are one text here. */
  datatype PropertyValue =
    | Resolved(value: Scalar, provenance: Provenance)
    | ResourceRef(logicalId: string, attribute: Option<string>)
    | Unresolved(kind: Kind, detail: string, scenarios: seq<Scalar>)

  datatype ResourceContext = ResourceContext(
    environment: Option<string>, application: Option<string>, team: Option<string>, costCentre: Option<string>)

  datatype Resource = Resource(
    key: ResourceKey,
    resourceType: string,
    properties: map<string, PropertyValue>,
    tags: map<string, string>,
    constructPath: Option<string>,
    context: ResourceContext)

  /** A graph never holds two resources under one key. */
  predicate UniqueKeys(graph: seq<Resource>) {
    forall i, j :: 0 <= i < |graph| && 0 <= j < |graph| && graph[i].key == graph[j].key ==> i == j
  }

  method CheckUniqueKeys(graph: seq<Resource>) returns (unique: bool)
    ensures unique == UniqueKeys(graph)
  {
    var seen: set<ResourceKey> := {};
    for i := 0 to |graph|
      invariant forall k :: k in seen <==> exists j :: 0 <= j < i && graph[j].key == k
      invariant UniqueKeys(graph[..i])
    {
      if graph[i].key in seen {
        return false;
      }
      seen := seen + {graph[i].key};
      assert forall j :: 0 <= j < i ==> graph[j].key != graph[i].key;
    }
    assert graph[..|graph|] == graph;
    return true;
  }

  /** A stack name without a slash can be read back from the rendered key. */
  lemma KeyTextIsInjective(k: ResourceKey, k': ResourceKey)
    requires '/' !in k.stack && '/' !in k'.stack && KeyText(k) == KeyText(k')
    ensures k == k'
  {
    var t, n, n' := KeyText(k), |k.stack|, |k'.stack|;
    assert t[n] == '/' && t[n'] == '/';
    forall i | 0 <= i < n ensures t[i] != '/' { assert t[i] == k.stack[i]; }
    forall i | 0 <= i < n' ensures t[i] != '/' { assert t[i] == k'.stack[i]; }
    assert n == n';
    assert k.stack == t[..n] == k'.stack;
    assert k.logicalId == t[n + 1..] == k'.logicalId;
  }
}
