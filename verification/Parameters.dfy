/** What the program takes for a parameter's default, and when that is what is deployed. */
module Parameters {
  import opened Templates
  import opened Intrinsics
  import opened Ordering
  import opened Diff
  import opened Deployment
  import opened Soundness
  import opened Guards

  /** The default a declaration states, when it is a scalar other than null. */
  function DefaultOf(declaration: Node): Option<Scalar> {
    if !declaration.Dict? then None
    else
      match Lookup(declaration.entries, "Default")
      case None => None
      case Some(value) => if value.Leaf? && !value.scalar.Null? then Some(value.scalar) else None
  }

  /** The default of one parameter of a template. */
  function DeclaredDefault(parameters: seq<Entry>, name: string): Option<Scalar> {
    match Lookup(parameters, name)
    case None => None
    case Some(declaration) => DefaultOf(declaration)
  }

  /** Strings, integers, booleans and fractions count as defaults; a null, a list or a mapping does
      not, nor does a declaration that states none. */
  lemma DefaultInFields(parameters: seq<Entry>, name: string)
    ensures forall s :: DeclaredDefault(parameters, name) == Some(s)
              <==> && Lookup(parameters, name).Some? && Lookup(parameters, name).value.Dict?
                   && Lookup(Lookup(parameters, name).value.entries, "Default") == Some(Leaf(s))
                   && (s.Str? || s.Int? || s.Bool? || s.Float?)
  {
  }

  /** A mapping names no key twice. */
  ghost predicate DistinctKeys(entries: seq<Entry>) {
    forall i, j :: 0 <= i < |entries| && 0 <= j < |entries| && entries[i].key == entries[j].key ==> i == j
  }

  /** Every scalar default is recorded as the host language writes it. */
  method StringParameterDefaults(parameters: seq<Entry>) returns (defaults: map<string, string>)
    requires DistinctKeys(parameters)
    ensures forall p :: p in defaults <==> DeclaredDefault(parameters, p).Some?
    ensures forall p :: p in defaults ==> defaults[p] == ScalarText(DeclaredDefault(parameters, p).value)
  {
    hide DefaultOf, ScalarText;
    defaults := map[];
    NothingDeclared();
    for i := 0 to |parameters|
      invariant forall p :: p in defaults <==> DeclaredDefault(parameters[..i], p).Some?
      invariant forall p :: p in defaults ==> defaults[p] == ScalarText(DeclaredDefault(parameters[..i], p).value)
    {
      OneMoreDeclared(parameters, i);
      var stated := DefaultOf(parameters[i].value);
      if stated.Some? {
        defaults := defaults[parameters[i].key := ScalarText(stated.value)];
      }
    }
    assert parameters[..|parameters|] == parameters;
  }

  lemma NothingDeclared()
    ensures forall p :: DeclaredDefault([], p).None?
  {
  }

  lemma OneMoreDeclared(parameters: seq<Entry>, i: nat)
    requires DistinctKeys(parameters) && i < |parameters|
    ensures DeclaredDefault(parameters[..i], parameters[i].key).None?
    ensures forall p :: DeclaredDefault(parameters[..i + 1], p)
                        == if p == parameters[i].key then DefaultOf(parameters[i].value) else DeclaredDefault(parameters[..i], p)
  {
    hide DefaultOf;
    assert parameters[..i + 1] == parameters[..i] + [parameters[i]];
    forall p
      ensures DeclaredDefault(parameters[..i + 1], p)
              == if p == parameters[i].key then DefaultOf(parameters[i].value) else DeclaredDefault(parameters[..i], p)
    {
      LookupInOneMore(parameters[..i], parameters[i], p);
    }
  }

  lemma {:induction false} LookupInOneMore(entries: seq<Entry>, last: Entry, key: string)
    requires forall i :: 0 <= i < |entries| ==> entries[i].key != last.key
    ensures Lookup(entries + [last], key) == if key == last.key then Some(last.value) else Lookup(entries, key)
    decreases |entries|
  {
    if entries != [] {
      assert (entries + [last])[1..] == entries[1..] + [last];
      assert forall i :: 0 <= i < |entries[1..]| ==> entries[1..][i] == entries[i + 1];
      LookupInOneMore(entries[1..], last, key);
    } else {
      assert ([last])[1..] == [];
    }
  }

  function Keys(entries: seq<Entry>): set<string> {
    set i | 0 <= i < |entries| :: entries[i].key
  }

  /** The declared parameters with neither a supplied value nor a default, in order. */
  method UnknownParameters(parameters: seq<Entry>, supplied: map<string, string>, defaults: map<string, string>) returns (names: seq<string>)
    ensures forall p :: p in names <==> p in Keys(parameters) && p !in supplied && p !in defaults
    ensures SortedBy(names, TextAtMost)
  {
    hide TextAtMost, Arranged;
    var open := set p | p in Keys(parameters) && p !in supplied && p !in defaults;
    names := SortedPaths(open);
    ArrangedMembers(open);
    ArrangedIsSorted(open);
  }

  /** The account number that resolution always uses. */
  const PLACEHOLDER_ACCOUNT := "000000000000"

  /** The context that one template is normalised in. */
  ghost predicate IsTemplateContext(ctx: Context, parameters: seq<Entry>) {
    && ctx.partition == "aws" && ctx.accountId == PLACEHOLDER_ACCOUNT && ctx.urlSuffix == "amazonaws.com"
    && ctx.declared == Keys(parameters)
    && (forall p :: p in ctx.defaults <==> DeclaredDefault(parameters, p).Some?)
    && (forall p :: p in ctx.defaults ==> ctx.defaults[p] == ScalarText(DeclaredDefault(parameters, p).value))
  }

  /** In every template the account number resolves to twelve zeros. */
  lemma AccountIsTwelveZeros(ctx: Context, parameters: seq<Entry>, depth: nat)
    requires IsTemplateContext(ctx, parameters) && depth <= MAX_DEPTH
    ensures Resolve(RefTo("AWS::AccountId"), ctx, depth) == Known(Leaf(Str("000000000000")), FromTemplate)
  {
    hide FnOf, PseudoOf, DeclaredDefault;
    AccountName();
    RefIsCall("AWS::AccountId");
    var call := RefTo("AWS::AccountId");
    assert Resolve(call, ctx, depth) == ResolveCall(call, ctx, depth) == ResolveRef(Arg(call), ctx);
  }

  /** A parameter is reported as unresolved exactly when a reference to it stays unknown for want
      of a value. */
  lemma UnresolvedExactly(ctx: Context, parameters: seq<Entry>, names: seq<string>, name: string, depth: nat)
    requires IsTemplateContext(ctx, parameters) && name in ctx.declared && PseudoOf(name).None? && name !in ctx.resourceIds
    requires forall p :: p in names <==> p in Keys(parameters) && p !in ctx.supplied && p !in ctx.defaults
    requires depth <= MAX_DEPTH
    ensures name in names <==> Resolve(RefTo(name), ctx, depth).Unknown?
  {
    hide PseudoOf, FnOf, IsTemplateContext;
    RefIsCall(name);
    assert ctx.declared == Keys(parameters) by { DeclaredAreKeys(ctx, parameters); }
    assert Resolve(RefTo(name), ctx, depth) == ResolveCall(RefTo(name), ctx, depth) == ResolveParameter(name, ctx);
  }

  lemma DeclaredAreKeys(ctx: Context, parameters: seq<Entry>)
    requires IsTemplateContext(ctx, parameters)
    ensures ctx.declared == Keys(parameters)
  {
  }

  // ----- when a default is what is deployed -----

  /** A default is deployed in the text the template language gives it. */
  ghost predicate DeploysDefaults(parameters: seq<Entry>, ctx: Context, env: Environment) {
    forall p :: DeclaredDefault(parameters, p).Some? && p !in ctx.supplied ==> env.parameter(p) == env.text(DeclaredDefault(parameters, p).value)
  }

  /** The recorded default is the deployed value exactly when a value is supplied instead, there
      is no default, or it is a scalar that reads alike. */
  lemma DefaultAgreesExactly(parameters: seq<Entry>, ctx: Context, env: Environment, name: string)
    requires IsTemplateContext(ctx, parameters) && DeploysDefaults(parameters, ctx, env)
    ensures ParameterAgrees(name, ctx, env)
            <==> name in ctx.supplied || DeclaredDefault(parameters, name).None? || ComparesAlike(DeclaredDefault(parameters, name).value, env)
  {
    hide DeclaredDefault, ScalarText;
  }

  /** Comparing a parameter left at its default with a string is decided, and right exactly when
      both readings of the default agree on whether it is that string. */
  lemma DefaultComparesExactly(parameters: seq<Entry>, ctx: Context, env: Environment, name: string, text: string)
    requires IsTemplateContext(ctx, parameters) && DeploysDefaults(parameters, ctx, env) && AgreesOnInputs(ctx, env)
    requires name in ctx.declared && name !in ctx.supplied && DeclaredDefault(parameters, name).Some?
    requires PseudoOf(name).None? && name !in ctx.resourceIds
    ensures var e, s := EqualsOf(RefTo(name), Leaf(Str(text))), DeclaredDefault(parameters, name).value;
            var v := EvaluateExpression(e, ctx, 0, {});
            && !v.Undecided?
            && Holds(e, ctx, env) == (env.text(s) == text)
            && (VerdictAgrees(v, Holds(e, ctx, env)) <==> (ScalarText(s) == text <==> env.text(s) == text))
  {
    hide EvaluateExpression, Holds, PseudoOf, FnOf, DeclaredDefault, ScalarText, IsTemplateContext;
    var s := DeclaredDefault(parameters, name).value;
    assert name in ctx.defaults && ctx.defaults[name] == ScalarText(s) by { DefaultIsRecorded(ctx, parameters, name); }
    var call := RefTo(name);
    RefIsCall(name);
    EqualsUnfolds(call, Leaf(Str(text)), ctx, env);
    assert Means(call, ctx, env) == CallMeans(call, ctx, env) == Plain(Str(env.text(s)));
    assert Resolve(call, ctx, 1) == ResolveCall(call, ctx, 1) == Known(Leaf(Str(ScalarText(s))), TemplateDefault);
    LeafIsItself(Str(text), ctx, env, 1);
    TextIsText(ScalarText(s), text, ctx.host);
  }

  lemma TextIsText(s: string, t: string, host: Host)
    ensures TextOf(Leaf(Str(s)), host) == s && TextOf(Leaf(Str(t)), host) == t
  {
  }

  lemma DefaultIsRecorded(ctx: Context, parameters: seq<Entry>, name: string)
    requires IsTemplateContext(ctx, parameters) && DeclaredDefault(parameters, name).Some?
    ensures name in ctx.defaults && ctx.defaults[name] == ScalarText(DeclaredDefault(parameters, name).value)
  {
    hide DeclaredDefault, ScalarText;
  }

  /** With a boolean default it is right exactly when the string is neither of its spellings. */
  lemma BooleanDefaultExactly(parameters: seq<Entry>, ctx: Context, env: Environment, name: string, b: bool, text: string)
    requires IsTemplateContext(ctx, parameters) && DeploysDefaults(parameters, ctx, env) && AgreesOnInputs(ctx, env) && WritesBooleans(env)
    requires name in ctx.declared && name !in ctx.supplied && DeclaredDefault(parameters, name) == Some(Bool(b))
    requires PseudoOf(name).None? && name !in ctx.resourceIds
    ensures var e := EqualsOf(RefTo(name), Leaf(Str(text)));
            VerdictAgrees(EvaluateExpression(e, ctx, 0, {}), Holds(e, ctx, env))
            <==> text != (if b then "True" else "False") && text != (if b then "true" else "false")
  {
    hide EvaluateExpression, Holds, PseudoOf, DeclaredDefault, IsTemplateContext, DeploysDefaults;
    DefaultComparesExactly(parameters, ctx, env, name, text);
    assert "True"[0] != "true"[0] && "False"[0] != "false"[0];
  }

  /** For instance, with `Default: true` a comparison with `"true"` is declared false although it
      holds once deployed. */
  lemma DefaultedFlagIsMissed(parameters: seq<Entry>, ctx: Context, env: Environment, name: string)
    requires IsTemplateContext(ctx, parameters) && DeploysDefaults(parameters, ctx, env) && AgreesOnInputs(ctx, env) && WritesBooleans(env)
    requires name in ctx.declared && name !in ctx.supplied && DeclaredDefault(parameters, name) == Some(Bool(true))
    requires PseudoOf(name).None? && name !in ctx.resourceIds
    ensures var e := EqualsOf(RefTo(name), Leaf(Str("true"))); EvaluateExpression(e, ctx, 0, {}) == No && Holds(e, ctx, env)
  {
    hide EvaluateExpression, Holds, PseudoOf, DeclaredDefault, IsTemplateContext, DeploysDefaults;
    DefaultComparesExactly(parameters, ctx, env, name, "true");
    BooleanDefaultExactly(parameters, ctx, env, name, true, "true");
  }

  /** The parameters whose default reads the same everywhere. */
  ghost function PlainDefaults(parameters: seq<Entry>): set<string> {
    set p | p in Keys(parameters) && DeclaredDefault(parameters, p).Some?
            && (DeclaredDefault(parameters, p).value.Str? || DeclaredDefault(parameters, p).value.Int?)
  }

  /** A template that mentions neither the account nor a parameter left at a boolean or
      fractional default, and compares and joins only strings and integers, is resolved soundly
      whatever account it is deployed to. */
  lemma PlainTemplatesAreSound(n: Node, parameters: seq<Entry>, ctx: Context, env: Environment, conditions: set<string>, depth: nat)
    requires IsTemplateContext(ctx, parameters) && DeploysDefaults(parameters, ctx, env)
    requires AgreesOnInputs(ctx, env) && SatisfiesConditions(ctx, env, conditions) && Literal(ctx.mappings)
    requires env.pseudo(Region) == Plain(Str(ctx.region)) && env.pseudo(Partition) == Plain(Str("aws"))
    requires env.pseudo(StackName) == Plain(Str(ctx.stackName)) && env.pseudo(UrlSuffix) == Plain(Str("amazonaws.com"))
    requires forall i :: env.text(Int(i)) == IntText(i)
    requires var trust := AnyAccount(conditions, PlainDefaults(parameters));
             && Lawful(n, ctx, trust)
             && forall c :: c in conditions && c in ctx.conditions ==> Lawful(ctx.conditions[c], ctx, trust)
    ensures Agrees(Resolve(n, ctx, depth), Means(n, ctx, env), ctx, env, AnyAccount(conditions, PlainDefaults(parameters)))
    ensures forall c :: c in conditions ==> VerdictAgrees(EvaluateCondition(Leaf(Str(c)), ctx, depth, {}), env.truth(c))
  {
    hide Lawful, Resolve, Means, SatisfiesConditions, EvaluateCondition, Agrees, Literal, AnyAccount, DeploysDefaults, ParameterAgrees, DeclaredDefault, IntText;
    forall p | p in PlainDefaults(parameters)
      ensures ParameterAgrees(p, ctx, env)
    {
      DefaultAgreesExactly(parameters, ctx, env, p);
      PlainReadsAlike(DeclaredDefault(parameters, p).value, env);
    }
    SoundForEveryAccount(n, ctx, env, conditions, PlainDefaults(parameters), depth);
  }

  lemma PlainReadsAlike(s: Scalar, env: Environment)
    requires s.Str? || s.Int?
    requires (forall t :: env.text(Str(t)) == t) && forall i :: env.text(Int(i)) == IntText(i)
    ensures ComparesAlike(s, env)
  {
    hide IntText;
  }
}
