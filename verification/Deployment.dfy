/** What a template means once it is deployed.

    An environment supplies everything the template leaves open: parameter values, pseudo
    parameters, resource attributes, the truth of every condition, the text of a scalar, and a
    value for every expression outside the fragment that is resolved. */
module Deployment {
  import opened Templates
  import opened SubTemplates
  import opened Intrinsics

  datatype Value =
    | Absent
    | Plain(scalar: Scalar)
    | Many(items: seq<Value>)
    | Fields(entries: seq<(string, Value)>)

  datatype Environment = Environment(
    pseudo: Pseudo -> Value,
    parameter: string -> string,
    attribute: (string, Option<string>) -> Value,
    truth: string -> bool,
    text: Scalar -> string,
    other: Node -> Value,
    otherTruth: Node -> bool)

  /** Data taken as written, calls included. */
  function Verbatim(n: Node): Value
    decreases n
  {
    match n
    case Leaf(s) => Plain(s)
    case List(items) => Many(seq(|items|, i requires 0 <= i < |items| => Verbatim(items[i])))
    case Dict(entries) =>
      Fields(seq(|entries|, i requires 0 <= i < |entries| => (entries[i].key, Verbatim(entries[i].value))))
  }

  function Means(n: Node, ctx: Context, env: Environment): Value
    decreases n, 2
  {
    match n
    case Leaf(s) => Plain(s)
    case List(items) => Many(MeansEach(items, ctx, env))
    case Dict(entries) =>
      if IsCall(n) then CallMeans(n, ctx, env)
      else Fields(seq(|entries|, i requires 0 <= i < |entries| => (entries[i].key, Means(entries[i].value, ctx, env))))
  }

  function MeansEach(items: seq<Node>, ctx: Context, env: Environment): (vs: seq<Value>)
    ensures |vs| == |items|
    ensures forall i :: 0 <= i < |items| ==> vs[i] == Means(items[i], ctx, env)
    decreases items
  {
    seq(|items|, i requires 0 <= i < |items| => Means(items[i], ctx, env))
  }

  function CallMeans(n: Node, ctx: Context, env: Environment): Value
    requires IsCall(n)
    decreases n, 1
  {
    var arg := Arg(n);
    match Callee(n)
    case RefFn => RefMeans(arg, ctx, env)
    case GetAttFn => GetAttMeans(arg, ctx, env)
    case FindInMapFn =>
      if arg.List? && |arg.items| >= 3 then
        FindInMapMeans([Means(arg.items[0], ctx, env), Means(arg.items[1], ctx, env), Means(arg.items[2], ctx, env)], n, ctx, env)
      else env.other(n)
    case IfFn =>
      if !Takes(arg, 3) then env.other(n)
      else if ConditionHolds(arg.items[0], env) then Means(arg.items[1], ctx, env)
      else Means(arg.items[2], ctx, env)
    case JoinFn => if Takes(arg, 2) then JoinMeans(arg.items[0], Means(arg.items[1], ctx, env), n, env) else env.other(n)
    case SelectFn =>
      if Takes(arg, 2) then SelectMeans(Means(arg.items[0], ctx, env), Means(arg.items[1], ctx, env), n, ctx, env)
      else env.other(n)
    case SplitFn => if Takes(arg, 2) then SplitMeans(arg.items[0], Means(arg.items[1], ctx, env), n, env) else env.other(n)
    case SubFn =>
      var text := if SubParts(arg).Some? then SubMeans(ParseSub(SubParts(arg).value.0), arg, ctx, env) else None;
      if text.Some? then Plain(Str(text.value)) else env.other(n)
    case ConditionFn => Plain(Bool(ConditionHolds(arg, env)))
    case AndFn => Plain(Bool(Holds(n, ctx, env)))
    case OrFn => Plain(Bool(Holds(n, ctx, env)))
    case NotFn => Plain(Bool(Holds(n, ctx, env)))
    case EqualsFn => Plain(Bool(Holds(n, ctx, env)))
    case _ => env.other(n)
  }

  function RefMeans(arg: Node, ctx: Context, env: Environment): Value {
    if !(arg.Leaf? && arg.scalar.Str?) then env.other(arg)
    else
      var name := arg.scalar.s;
      match PseudoOf(name)
      case Some(p) => if p.NoValue? then Absent else env.pseudo(p)
      case None =>
        if name in ctx.resourceIds then env.attribute(name, None)
        else if name in ctx.declared then Plain(Str(env.parameter(name)))
        else env.other(arg)
  }

  function GetAttMeans(arg: Node, ctx: Context, env: Environment): Value {
    var r := ResolveGetAtt(arg, ctx);
    if r.Reference? then env.attribute(r.logicalId, r.attribute) else env.other(arg)
  }

  predicate AllTexts(vs: seq<Value>) {
    forall i :: 0 <= i < |vs| ==> vs[i].Plain? && vs[i].scalar.Str?
  }

  predicate AllPlain(vs: seq<Value>) {
    forall i :: 0 <= i < |vs| ==> vs[i].Plain?
  }

  /** Mappings are literal data, so the entry deploys as written. */
  function FindInMapMeans(keys: seq<Value>, n: Node, ctx: Context, env: Environment): Value {
    if !AllTexts(keys) then env.other(n)
    else
      match Descend(ctx.mappings, seq(|keys|, i requires 0 <= i < |keys| => keys[i].scalar.s))
      case None => env.other(n)
      case Some(entry) => Verbatim(entry)
  }

  function DeployedTexts(vs: seq<Value>, env: Environment): seq<string>
    requires AllPlain(vs)
  {
    seq(|vs|, i requires 0 <= i < |vs| => env.text(vs[i].scalar))
  }

  function JoinMeans(delimiter: Node, parts: Value, n: Node, env: Environment): Value {
    if delimiter.Leaf? && delimiter.scalar.Str? && parts.Many? && AllPlain(parts.items) then
      Plain(Str(Intersperse(delimiter.scalar.s, DeployedTexts(parts.items, env))))
    else env.other(n)
  }

  /** Selection is from a list, by a position inside it. */
  function SelectMeans(index: Value, candidates: Value, n: Node, ctx: Context, env: Environment): Value {
    if !(index.Plain? && candidates.Many?) then env.other(n)
    else
      match IndexOf(index.scalar, ctx.host)
      case None => env.other(n)
      case Some(p) => if 0 <= p < |candidates.items| then candidates.items[p] else env.other(n)
  }

  function SplitMeans(delimiter: Node, source: Value, n: Node, env: Environment): Value {
    if delimiter.Leaf? && delimiter.scalar.Str? && delimiter.scalar.s != "" && source.Plain? && source.scalar.Str? then
      Verbatim(TextList(SplitText(source.scalar.s, delimiter.scalar.s, 0)))
    else env.other(n)
  }

  /** The substituted text, when every slot stands for a scalar. */
  function SubMeans(st: SubTemplate, arg: Node, ctx: Context, env: Environment): Option<string>
    requires SubParts(arg).Some?
    decreases arg, 1, st
  {
    match st
    case Last(text) => Some(text)
    case Unclosed(text, tail) => Some(text + tail)
    case Slot(text, name, rest) =>
      var after := SubMeans(rest, arg, ctx, env);
      if after.None? then None
      else if IsEscape(name) then Some(text + EscapeText(name) + after.value)
      else
        var piece := SlotMeans(name, arg, ctx, env);
        if piece.Plain? then Some(text + env.text(piece.scalar) + after.value) else None
  }

  function SlotMeans(name: string, arg: Node, ctx: Context, env: Environment): Value
    requires SubParts(arg).Some?
    decreases arg, 0
  {
    var local := SubParts(arg).value.1;
    match Lookup(local, name)
    case Some(node) =>
      LocalIsSmaller(arg, name);
      Means(node, ctx, env)
    case None =>
      var dot := FirstDot(name, 0);
      if dot < |name| then GetAttMeans(DottedTarget(name, dot), ctx, env)
      else RefMeans(Leaf(Str(name)), ctx, env)
  }

  lemma LocalIsSmaller(arg: Node, name: string)
    requires SubParts(arg).Some? && Lookup(SubParts(arg).value.1, name).Some?
    ensures Lookup(SubParts(arg).value.1, name).value < arg
  {
    var local := SubParts(arg).value.1;
    var i :| 0 <= i < |local| && Lookup(local, name).value == local[i].value;
    assert local == arg.items[1].entries;
    assert arg.items[1].entries[i].value < arg.items[1];
  }

  /** The deployed truth of a condition named in an `If` or a `Condition`. */
  predicate ConditionHolds(name: Node, env: Environment) {
    if name.Leaf? && name.scalar.Str? then env.truth(name.scalar.s) else env.otherTruth(name)
  }

  predicate Holds(e: Node, ctx: Context, env: Environment)
    decreases e, 0
  {
    if !IsCall(e) then env.otherTruth(e)
    else
      var arg := Arg(e);
      match Callee(e)
      case ConditionFn => ConditionHolds(arg, env)
      case EqualsFn =>
        if !Takes(arg, 2) then env.otherTruth(e)
        else SameText(Means(arg.items[0], ctx, env), Means(arg.items[1], ctx, env), e, env)
      case NotFn => if Takes(arg, 1) then !Holds(arg.items[0], ctx, env) else env.otherTruth(e)
      case AndFn =>
        if arg.List? then forall i :: 0 <= i < |arg.items| ==> Holds(arg.items[i], ctx, env)
        else env.otherTruth(e)
      case OrFn =>
        if arg.List? then exists i :: 0 <= i < |arg.items| && Holds(arg.items[i], ctx, env)
        else env.otherTruth(e)
      case _ => env.otherTruth(e)
  }

  predicate SameText(left: Value, right: Value, e: Node, env: Environment) {
    if left.Plain? && right.Plain? then env.text(left.scalar) == env.text(right.scalar)
    else env.otherTruth(e)
  }

  // ----- which deployments a soundness statement speaks about -----

  /** Supplied values are what is deployed, and a string is its own text. */
  ghost predicate AgreesOnInputs(ctx: Context, env: Environment) {
    && (forall p :: p in ctx.supplied ==> env.parameter(p) == ctx.supplied[p])
    && (forall s :: env.text(Str(s)) == s)
  }

  /** The value resolution takes for a pseudo parameter is the deployed one. */
  predicate PseudoAgrees(p: Pseudo, ctx: Context, env: Environment) {
    ResolvePseudo(p, ctx).Known? ==> env.pseudo(p) == Plain(ResolvePseudo(p, ctx).value.scalar)
  }

  /** The value recorded as a parameter's default is the deployed one, where it is used. */
  predicate ParameterAgrees(p: string, ctx: Context, env: Environment) {
    p in ctx.defaults && p !in ctx.supplied ==> env.parameter(p) == ctx.defaults[p]
  }

  /** A scalar that reads the same to the program and in the deployment: when compared, and when
      joined or substituted. */
  predicate ComparesAlike(s: Scalar, env: Environment) {
    env.text(s) == ScalarText(s)
  }

  predicate JoinsAlike(s: Scalar, env: Environment) {
    env.text(s) == PieceText(s)
  }

  /** What a statement relies on: these conditions, these pseudo parameters, the defaults of
      these parameters, and the text of these scalars where they are compared or joined. */
  datatype Trust = Trust(
    conditions: set<string>, pseudos: set<Pseudo>, parameters: set<string>, compared: Scalar -> bool, joined: Scalar -> bool)

  /** The truth assignment satisfies the definitions of the conditions, cyclic ones included. */
  ghost predicate SatisfiesConditions(ctx: Context, env: Environment, conditions: set<string>) {
    forall c :: c in conditions && Defined(ctx, c) ==> env.truth(c) == Holds(ctx.conditions[c], ctx, env)
  }

  /** The deployment bears the trust out. */
  ghost predicate Warrants(ctx: Context, env: Environment, trust: Trust) {
    && (forall p :: p in trust.pseudos ==> PseudoAgrees(p, ctx, env))
    && (forall p :: p in trust.parameters ==> ParameterAgrees(p, ctx, env))
    && (forall s :: trust.compared(s) ==> ComparesAlike(s, env))
    && (forall s :: trust.joined(s) ==> JoinsAlike(s, env))
    && SatisfiesConditions(ctx, env, trust.conditions)
  }

  /** No intrinsic call anywhere inside. */
  predicate Literal(n: Node)
    decreases n
  {
    match n
    case Leaf(_) => true
    case List(items) => forall i :: 0 <= i < |items| ==> Literal(items[i])
    case Dict(entries) => !IsCall(n) && forall i :: 0 <= i < |entries| ==> Literal(entries[i].value)
  }

  predicate LawfulOperand(n: Node, ctx: Context, trust: Trust) {
    var r := Resolve(n, ctx, 0);
    r.Known? ==> r.value.Leaf? && trust.compared(r.value.scalar)
  }

  predicate OrdinaryIndex(n: Node, ctx: Context) {
    var r := Resolve(n, ctx, 0);
    r.Known? && r.value.Leaf? && IndexOf(r.value.scalar, ctx.host).Some? ==> IndexOf(r.value.scalar, ctx.host).value >= 0
  }

  predicate NotText(n: Node, ctx: Context) {
    var r := Resolve(n, ctx, 0);
    !(r.Known? && r.value.Leaf? && r.value.scalar.Str?)
  }

  predicate LawfulPiece(r: Resolution, trust: Trust) {
    r.Known? && r.value.Leaf? ==> trust.joined(r.value.scalar)
  }

  predicate LawfulPieces(parts: Node, ctx: Context, trust: Trust) {
    var r := Resolve(parts, ctx, 0);
    r.Known? && r.value.List? ==> forall i :: 0 <= i < |r.value.items| ==> LawfulPiece(Resolve(r.value.items[i], ctx, 0), trust)
  }

  /** The name stands for a parameter whose default is used. */
  predicate ReadsDefault(name: string, ctx: Context) {
    PseudoOf(name).None? && name !in ctx.resourceIds && name in ctx.declared && name !in ctx.supplied && name in ctx.defaults
  }

  predicate LawfulName(name: string, ctx: Context, trust: Trust) {
    && (PseudoOf(name).Some? ==> PseudoOf(name).value in trust.pseudos)
    && (ReadsDefault(name, ctx) ==> name in trust.parameters)
  }

  /** The slot is a name, neither a local variable nor an attribute. */
  predicate IsName(name: string, local: seq<Entry>) {
    Lookup(local, name).None? && FirstDot(name, 0) == |name|
  }

  predicate LawfulSlots(st: SubTemplate, local: seq<Entry>, ctx: Context, trust: Trust) {
    match st
    case Last(_) => true
    case Unclosed(_, _) => true
    case Slot(_, name, rest) =>
      && (!IsEscape(name) ==> LawfulPiece(SlotValue(name, local, ctx, 0), trust) && (IsName(name, local) ==> LawfulName(name, ctx, trust)))
      && LawfulSlots(rest, local, ctx, trust)
  }

  predicate InScope(name: Node, trust: Trust) {
    name.Leaf? && name.scalar.Str? ==> name.scalar.s in trust.conditions
  }

  /** Only trusted conditions, pseudo parameters and defaults are mentioned, `Equals` compares and `Join`
      and `Sub` combine trusted scalars, and `Select` picks by a position that is not negative
      from something other than a string.  It can be checked before any deployment is known. */
  predicate Lawful(n: Node, ctx: Context, trust: Trust)
    decreases n
  {
    match n
    case Leaf(_) => true
    case List(items) => forall i :: 0 <= i < |items| ==> Lawful(items[i], ctx, trust)
    case Dict(entries) =>
      && (forall i :: 0 <= i < |entries| ==> Lawful(entries[i].value, ctx, trust))
      && (IsCall(n) ==> LawfulCall(Callee(n), Arg(n), ctx, trust))
  }

  predicate LawfulCall(fn: Fn, arg: Node, ctx: Context, trust: Trust) {
    match fn
    case RefFn => arg.Leaf? && arg.scalar.Str? ==> LawfulName(arg.scalar.s, ctx, trust)
    case ConditionFn => InScope(arg, trust)
    case IfFn => Takes(arg, 3) ==> InScope(arg.items[0], trust)
    case EqualsFn => Takes(arg, 2) ==> LawfulOperand(arg.items[0], ctx, trust) && LawfulOperand(arg.items[1], ctx, trust)
    case SelectFn => Takes(arg, 2) ==> OrdinaryIndex(arg.items[0], ctx) && NotText(arg.items[1], ctx)
    case JoinFn => Takes(arg, 2) ==> LawfulPieces(arg.items[1], ctx, trust)
    case SubFn => SubParts(arg).Some? ==> LawfulSlots(ParseSub(SubParts(arg).value.0), SubParts(arg).value.1, ctx, trust)
    case _ => true
  }

  ghost predicate Setting(ctx: Context, env: Environment, trust: Trust) {
    && AgreesOnInputs(ctx, env)
    && Warrants(ctx, env, trust)
    && Literal(ctx.mappings)
    && forall c :: c in trust.conditions && c in ctx.conditions ==> Lawful(ctx.conditions[c], ctx, trust)
  }

  lemma {:induction false} LiteralMeansItself(n: Node, ctx: Context, env: Environment, trust: Trust)
    requires Literal(n)
    ensures Lawful(n, ctx, trust) && Means(n, ctx, env) == Verbatim(n)
    decreases n
  {
    match n
    case Leaf(_) =>
    case List(items) =>
      forall i | 0 <= i < |items|
        ensures Lawful(items[i], ctx, trust) && Means(items[i], ctx, env) == Verbatim(items[i])
      {
        LiteralMeansItself(items[i], ctx, env, trust);
      }
      assert MeansEach(items, ctx, env) == Verbatim(n).items;
    case Dict(entries) =>
      forall i | 0 <= i < |entries|
        ensures Lawful(entries[i].value, ctx, trust) && Means(entries[i].value, ctx, env) == Verbatim(entries[i].value)
      {
        LiteralMeansItself(entries[i].value, ctx, env, trust);
      }
      assert Means(n, ctx, env).entries == Verbatim(n).entries;
  }

  lemma {:induction false} DescendIsLiteral(n: Node, keys: seq<string>)
    requires Literal(n)
    ensures Descend(n, keys).Some? ==> Literal(Descend(n, keys).value)
    decreases |keys|
  {
    if keys != [] && n.Dict? && Lookup(n.entries, keys[0]).Some? {
      DescendIsLiteral(Lookup(n.entries, keys[0]).value, keys[1..]);
    }
  }
}
