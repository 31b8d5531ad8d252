/** What the flattened properties say is what is deployed. */
module DeployedProperties {
  import opened Templates
  import opened Intrinsics
  import opened Pointers
  import opened Resources
  import opened Flatten
  import opened FlattenLaws
  import opened Deployment
  import opened Soundness

  function LookupValue(entries: seq<(string, Value)>, key: string): Option<Value> {
    if entries == [] then None
    else if entries[0].0 == key then Some(entries[0].1)
    else LookupValue(entries[1..], key)
  }

  /** The part of a deployed value under a token: a mapping's entry, a list's element. */
  ghost function ValueUnder(v: Value, token: string): Option<Value> {
    match v
    case Many(items) =>
      if exists i :: 0 <= i < |items| && NatText(i) == token then
        var i :| 0 <= i < |items| && NatText(i) == token;
        Some(items[i])
      else None
    case Fields(entries) => LookupValue(entries, token)
    case _ => None
  }

  /** Follow tokens down a deployed value. */
  ghost function Walk(v: Value, tokens: seq<string>): Option<Value>
    decreases |tokens|
  {
    if tokens == [] then Some(v)
    else
      match ValueUnder(v, tokens[0])
      case None => None
      case Some(child) => Walk(child, tokens[1..])
  }

  lemma {:induction false} LookupMeans(entries: seq<Entry>, values: seq<(string, Value)>, key: string, ctx: Context, env: Environment)
    requires |values| == |entries|
    requires forall i :: 0 <= i < |entries| ==> values[i] == (entries[i].key, Means(entries[i].value, ctx, env))
    ensures LookupValue(values, key) == match Lookup(entries, key) case None => None case Some(n) => Some(Means(n, ctx, env))
    decreases |entries|
  {
    hide Means;
    if entries != [] {
      assert forall i :: 0 <= i < |entries[1..]| ==> entries[1..][i] == entries[i + 1] && values[1..][i] == values[i + 1];
      LookupMeans(entries[1..], values[1..], key, ctx, env);
    }
  }

  /** A child of a structure of the template means the part under its token. */
  lemma ChildMeans(inner: Node, token: string, ctx: Context, env: Environment)
    requires !IsCall(inner) && ChildAt(inner, token).Some?
    ensures ValueUnder(Means(inner, ctx, env), token) == Some(Means(ChildAt(inner, token).value, ctx, env))
  {
    hide CallMeans, NatText, FnOf;
    match inner
    case List(items) =>
      forall i: nat, j: nat | NatText(i) == NatText(j) ensures i == j { NatTextIsInjective(i, j); }
      var i :| 0 <= i < |items| && NatText(i) == token && ChildAt(inner, token) == Some(items[i]);
      var values := MeansEach(items, ctx, env);
      assert values[i] == Means(items[i], ctx, env);
      assert ValueUnder(Many(values), token) == Some(values[i]);
    case Dict(entries) =>
      var values := Means(inner, ctx, env).entries;
      LookupMeans(entries, values, token, ctx, env);
  }

  lemma ChildIsLawful(inner: Node, token: string, ctx: Context, trust: Trust)
    requires Lawful(inner, ctx, trust) && ChildAt(inner, token).Some?
    ensures Lawful(ChildAt(inner, token).value, ctx, trust)
  {
    hide NatText;
    LawfulParts(inner, ctx, trust);
    match inner
    case List(items) =>
      var i :| 0 <= i < |items| && NatText(i) == token && ChildAt(inner, token) == Some(items[i]);
    case Dict(entries) =>
      var i :| 0 <= i < |entries| && entries[i].key == token && Lookup(entries, token).value == entries[i].value;
  }

  /** A recorded property speaks the truth about a deployed value. */
  ghost predicate Reports(value: PropertyValue, deployed: Value, env: Environment) {
    match value
    case Resolved(s, _) => deployed.Plain? && AsScalar(deployed.scalar) == s
    case ResourceRef(id, attribute) => deployed == env.attribute(id, attribute)
    case Unresolved(_, _, _) => true
  }

  /** What the resolved tree holds at a place is what the deployment has there. */
  lemma {:induction false} TreeIsDeployed(n: Node, ctx: Context, env: Environment, trust: Trust, tokens: seq<string>, depth: nat)
    requires Setting(ctx, env, trust) && Lawful(n, ctx, trust)
    requires ValueAt(n, ctx, tokens, depth).Some? && !ValueAt(n, ctx, tokens, depth).value.Unresolved?
    ensures Walk(Means(n, ctx, env), tokens).Some?
    ensures Reports(ValueAt(n, ctx, tokens, depth).value, Walk(Means(n, ctx, env), tokens).value, env)
    decreases |tokens|
  {
    hide Resolve, Means, Lawful, Setting, ChildAt, FnOf, ValueUnder;
    var r := Resolve(n, ctx, 0);
    ResolveAgrees(n, ctx, env, trust, 0);
    if IsInner(r) {
      var child := ChildAt(r.value, tokens[0]).value;
      ChildMeans(r.value, tokens[0], ctx, env);
      ChildIsLawful(r.value, tokens[0], ctx, trust);
      TreeIsDeployed(child, ctx, env, trust, tokens[1..], depth + 1);
    } else if r.Known? {
      LeafMeans(r.value, ctx, env);
    }
  }

  lemma LeafMeans(n: Node, ctx: Context, env: Environment)
    ensures n.Leaf? ==> Means(n, ctx, env) == Plain(n.scalar)
  {
  }

  /** End to end: a scalar in the flattened properties, cut off at the cap or not, is the scalar
      that the deployed properties hold under the same pointer, and a reference names what they
      hold there. */
  lemma FlattenedIsDeployed(properties: Node, ctx: Context, env: Environment, trust: Trust, tokens: seq<string>, value: PropertyValue)
    requires Setting(ctx, env, trust) && Lawful(properties, ctx, trust) && Keyed(properties) && Keyed(ctx.mappings) && tokens != []
    requires Item(PropertyPath(tokens), value) in Flattened(properties, ctx, [], [], 0) && !value.Unresolved?
    ensures Walk(Means(properties, ctx, env), tokens).Some?
    ensures Reports(value, Walk(Means(properties, ctx, env), tokens).value, env)
  {
    hide Leaves, Keyed, Flattened, PropertyPath, ValueAt, Means, Lawful, Setting, Walk, Reports;
    FlattenWritesEachLeafOnce(properties, ctx);
    var leaves := Leaves(properties, ctx, [], 0);
    var kept := if |leaves| <= MAX_PROPERTIES then leaves else leaves[..MAX_PROPERTIES];
    var i :| 0 <= i < |kept| && Items(kept)[i] == Item(PropertyPath(tokens), value);
    assert kept[i] in leaves;
    PropertyPathIsInjective(kept[i].tokens, tokens);
    assert kept[i] == Placed(tokens, value);
    assert [] + tokens == tokens;
    LeavesAreLookups(properties, ctx, [], tokens, value, 0);
    TreeIsDeployed(properties, ctx, env, trust, tokens, 0);
  }
}
