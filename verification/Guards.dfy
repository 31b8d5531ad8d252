/** Where resolution and conditions go wrong, and exactly when they do not. */
module Guards {
  import opened Templates
  import opened Intrinsics
  import opened Monotonicity
  import opened Chains
  import opened Deployment
  import opened Soundness
  import opened Independence

  // ----- terms the examples are built from -----

  function RefTo(name: string): Node {
    Dict([Entry("Ref", Leaf(Str(name)))])
  }

  function SelectFirst(n: Node): Node {
    Dict([Entry("Fn::Select", List([Leaf(Int(0)), List([n])]))])
  }

  function EqualsOf(left: Node, right: Node): Node {
    Dict([Entry("Fn::Equals", List([left, right]))])
  }

  lemma CallNames()
    ensures FnOf("Ref") == Some(RefFn) && FnOf("Fn::Select") == Some(SelectFn) && FnOf("Fn::Equals") == Some(EqualsFn)
  {
    assert |"Ref"| == 3 && |"Fn::Select"| == 10 && |"Fn::Equals"| == 10;
    assert "Fn::Select"[4] == 'S' && "Fn::Base64"[4] == 'B' && "Fn::Equals"[4] == 'E' && "Fn::GetAtt"[4] == 'G' && "Fn::Length"[4] == 'L';
  }

  lemma RefIsCall(name: string)
    ensures IsCall(RefTo(name)) && Callee(RefTo(name)) == RefFn
  {
    hide FnOf;
    CallNames();
  }

  lemma SelectedMeans(ctx: Context, env: Environment, name: string)
    requires AgreesOnInputs(ctx, env) && name in ctx.supplied && name in ctx.declared
    requires PseudoOf(name).None? && name !in ctx.resourceIds
    ensures Means(SelectFirst(RefTo(name)), ctx, env) == Plain(Str(ctx.supplied[name]))
  {
    hide PseudoOf, FnOf;
    CallNames();
    var call, selected := RefTo(name), SelectFirst(RefTo(name));
    assert IsCall(call) && Callee(call) == RefFn && IsCall(selected) && Callee(selected) == SelectFn;
    assert Means(call, ctx, env) == CallMeans(call, ctx, env) == Plain(Str(ctx.supplied[name]));
    assert MeansEach([call], ctx, env) == [Plain(Str(ctx.supplied[name]))];
    assert Means(List([call]), ctx, env) == Many([Plain(Str(ctx.supplied[name]))]);
    assert Means(Leaf(Int(0)), ctx, env) == Plain(Int(0)) && IndexOf(Int(0), ctx.host) == Some(0);
    assert Means(selected, ctx, env) == CallMeans(selected, ctx, env);
  }

  lemma SelectedResolves(n: Node, ctx: Context, depth: nat)
    requires depth < MAX_DEPTH
    ensures Resolve(SelectFirst(n), ctx, depth) == Known(n, FromTemplate)
  {
    hide FnOf;
    CallNames();
    var selected := SelectFirst(n);
    assert IsCall(selected) && Callee(selected) == SelectFn;
    assert Resolve(List([n]), ctx, depth + 1) == Known(List([n]), FromTemplate);
    assert Resolve(Leaf(Int(0)), ctx, depth + 1) == Known(Leaf(Int(0)), FromTemplate);
    assert Arg(selected).items == [Leaf(Int(0)), List([n])];
    assert Resolve(selected, ctx, depth) == ResolveCall(selected, ctx, depth) == ResolveSelect(Arg(selected), ctx, depth);
  }

  // ----- comparisons -----

  lemma EqualsUnfolds(left: Node, right: Node, ctx: Context, env: Environment)
    ensures var e := EqualsOf(left, right);
            && EvaluateExpression(e, ctx, 0, {}) == CompareResolved(Resolve(left, ctx, 1), Resolve(right, ctx, 1), ctx.host)
            && Holds(e, ctx, env) == SameText(Means(left, ctx, env), Means(right, ctx, env), e, env)
  {
    hide FnOf, Resolve, Means, SameText;
    CallNames();
    var e := EqualsOf(left, right);
    assert IsCall(e) && Callee(e) == EqualsFn && Arg(e) == List([left, right]);
    assert EvaluateExpression(e, ctx, 0, {}) == EvaluateEquals(List([left, right]), ctx, 1);
  }

  /** A decided comparison has its deployed truth, in every deployment, when neither operand
      resolves to a raw call or a structure and both scalars read alike. */
  lemma DecidedEqualsIsRight(left: Node, right: Node, ctx: Context, env: Environment, trust: Trust)
    requires Setting(ctx, env, trust) && Lawful(left, ctx, trust) && Lawful(right, ctx, trust)
    requires LawfulOperand(left, ctx, trust) && LawfulOperand(right, ctx, trust)
    ensures VerdictAgrees(EvaluateExpression(EqualsOf(left, right), ctx, 0, {}), Holds(EqualsOf(left, right), ctx, env))
  {
    hide Lawful, FnOf, Setting, LawfulOperand;
    CallNames();
    var e := EqualsOf(left, right);
    assert IsCall(e) && Callee(e) == EqualsFn && Arg(e).items == [left, right];
    assert Lawful(e, ctx, trust) by { EqualsIsLawful(left, right, ctx, trust); }
    ExpressionAgrees(e, ctx, env, trust, 0, {});
  }

  lemma EqualsIsLawful(left: Node, right: Node, ctx: Context, trust: Trust)
    requires Lawful(left, ctx, trust) && Lawful(right, ctx, trust)
    requires LawfulOperand(left, ctx, trust) && LawfulOperand(right, ctx, trust)
    ensures Lawful(EqualsOf(left, right), ctx, trust)
  {
    hide FnOf, LawfulOperand;
    CallNames();
    var operands := List([left, right]);
    assert IsCall(EqualsOf(left, right)) && Callee(EqualsOf(left, right)) == EqualsFn;
    assert Lawful(operands, ctx, trust);
  }

  /** Among scalars it is right exactly when the program and the deployment agree on whether the
      two texts are the same. */
  lemma ScalarsCompareExactly(s: Scalar, t: Scalar, ctx: Context, env: Environment)
    ensures var e := EqualsOf(Leaf(s), Leaf(t)); var v := EvaluateExpression(e, ctx, 0, {});
            && !v.Undecided?
            && (VerdictAgrees(v, Holds(e, ctx, env)) <==> (ScalarText(s) == ScalarText(t) <==> env.text(s) == env.text(t)))
  {
    hide ScalarText, EvaluateExpression, Holds;
    EqualsUnfolds(Leaf(s), Leaf(t), ctx, env);
    assert Resolve(Leaf(s), ctx, 1) == Known(Leaf(s), FromTemplate) && Resolve(Leaf(t), ctx, 1) == Known(Leaf(t), FromTemplate);
  }

  /** The template language writes booleans in lower case. */
  ghost predicate WritesBooleans(env: Environment) {
    forall b :: env.text(Bool(b)) == if b then "true" else "false"
  }

  /** The program writes a boolean as its own language does, so comparing one with a string is
      right exactly when the string is neither of the two spellings. */
  lemma BooleansCompareExactly(b: bool, text: string, ctx: Context, env: Environment)
    requires AgreesOnInputs(ctx, env) && WritesBooleans(env)
    ensures var e := EqualsOf(Leaf(Bool(b)), Leaf(Str(text)));
            VerdictAgrees(EvaluateExpression(e, ctx, 0, {}), Holds(e, ctx, env))
            <==> text != (if b then "True" else "False") && text != (if b then "true" else "false")
  {
    hide EvaluateExpression, Holds;
    ScalarsCompareExactly(Bool(b), Str(text), ctx, env);
    assert "True"[0] != "true"[0] && "False"[0] != "false"[0];
  }

  /** For instance, a flag supplied as `true` and compared with the boolean is found different. */
  lemma TrueFlagIsMissed(ctx: Context, env: Environment, flag: string)
    requires AgreesOnInputs(ctx, env) && WritesBooleans(env) && flag in ctx.supplied && ctx.supplied[flag] == "true"
    requires flag in ctx.declared && flag !in ctx.resourceIds && PseudoOf(flag).None?
    ensures var e := EqualsOf(RefTo(flag), Leaf(Bool(true))); EvaluateExpression(e, ctx, 0, {}) == No && Holds(e, ctx, env)
  {
    hide EvaluateExpression, Holds, PseudoOf, FnOf;
    EqualsUnfolds(RefTo(flag), Leaf(Bool(true)), ctx, env);
    RefIsCall(flag);
    var call := RefTo(flag);
    assert Means(call, ctx, env) == CallMeans(call, ctx, env) == Plain(Str("true"));
    assert Resolve(call, ctx, 1) == ResolveCall(call, ctx, 1) == Known(Leaf(Str("true")), CliParameter);
    assert Resolve(Leaf(Bool(true)), ctx, 1) == Known(Leaf(Bool(true)), FromTemplate);
    assert "True"[0] != "true"[0];
  }

  lemma LeafIsItself(s: Scalar, ctx: Context, env: Environment, depth: nat)
    requires depth <= MAX_DEPTH
    ensures Means(Leaf(s), ctx, env) == Plain(s) && Resolve(Leaf(s), ctx, depth) == Known(Leaf(s), FromTemplate)
  {
  }

  lemma CallText(n: Node, host: Host)
    ensures IsCall(n) ==> TextOf(n, host) == host.textOf(n)
  {
  }

  ghost predicate ComparesRightWith(operand: Node, text: string, ctx: Context, env: Environment) {
    VerdictAgrees(EvaluateExpression(EqualsOf(operand, Leaf(Str(text))), ctx, 0, {}), Holds(EqualsOf(operand, Leaf(Str(text))), ctx, env))
  }

  lemma ComparesRightUnfolds(operand: Node, text: string, ctx: Context, env: Environment)
    requires AgreesOnInputs(ctx, env) && Means(operand, ctx, env).Plain? && Resolve(operand, ctx, 1).Known?
    ensures ComparesRightWith(operand, text, ctx, env)
            <==> (TextOf(Resolve(operand, ctx, 1).value, ctx.host) == text <==> env.text(Means(operand, ctx, env).scalar) == text)
  {
    hide EvaluateExpression, Holds, Means, Resolve;
    EqualsUnfolds(operand, Leaf(Str(text)), ctx, env);
    LeafIsItself(Str(text), ctx, env, 1);
  }

  /** A known operand that deploys to a scalar compares right with every string exactly when it
      reads as that scalar does; a picked call reads as its own rendering. */
  lemma OperandComparesExactly(operand: Node, ctx: Context, env: Environment, trust: Trust)
    requires Setting(ctx, env, trust) && Lawful(operand, ctx, trust)
    requires Means(operand, ctx, env).Plain? && Resolve(operand, ctx, 1).Known?
    ensures (forall text :: ComparesRightWith(operand, text, ctx, env))
            <==> if PicksCall(operand, ctx, 1) then ctx.host.textOf(Ends(operand, ctx, 1).node) == env.text(Means(operand, ctx, env).scalar)
                 else ComparesAlike(Means(operand, ctx, env).scalar, env)
  {
    hide Means, Resolve, ComparesRightWith, Setting, Lawful, Ends, IsCall;
    assert AgreesOnInputs(ctx, env) by { SettingAgrees(ctx, env, trust); }
    var value, scalar := Resolve(operand, ctx, 1).value, Means(operand, ctx, env).scalar;
    ResolveAgrees(operand, ctx, env, trust, 1);
    EndsDecide(operand, ctx, 1);
    ChainsDecide(operand, ctx, 1);
    OperandText(value, ctx, env);
    forall text
      ensures ComparesRightWith(operand, text, ctx, env) <==> (TextOf(value, ctx.host) == text <==> env.text(scalar) == text)
    {
      ComparesRightUnfolds(operand, text, ctx, env);
    }
    if TextOf(value, ctx.host) != env.text(scalar) { assert !ComparesRightWith(operand, env.text(scalar), ctx, env); }
  }

  lemma SettingAgrees(ctx: Context, env: Environment, trust: Trust)
    requires Setting(ctx, env, trust)
    ensures AgreesOnInputs(ctx, env)
  {
  }

  lemma OperandText(v: Node, ctx: Context, env: Environment)
    requires Means(v, ctx, env).Plain?
    ensures TextOf(v, ctx.host) == if IsCall(v) then ctx.host.textOf(v) else ScalarText(Means(v, ctx, env).scalar)
  {
    hide CallMeans;
  }

  /** Any operand that resolves to a raw call with another text than its value is declared
      different from that very value. */
  lemma RawCallMisleads(operand: Node, ctx: Context, env: Environment)
    requires AgreesOnInputs(ctx, env) && PicksCall(operand, ctx, 1) && Means(operand, ctx, env).Plain?
    requires ctx.host.textOf(Ends(operand, ctx, 1).node) != env.text(Means(operand, ctx, env).scalar)
    ensures var e := EqualsOf(operand, Leaf(Str(env.text(Means(operand, ctx, env).scalar))));
            EvaluateExpression(e, ctx, 0, {}) == No && Holds(e, ctx, env)
  {
    hide EvaluateExpression, Holds, Ends, Means, Resolve, IsCall;
    var value := Leaf(Str(env.text(Means(operand, ctx, env).scalar)));
    EndsDecide(operand, ctx, 1);
    CallText(Ends(operand, ctx, 1).node, ctx.host);
    EqualsUnfolds(operand, value, ctx, env);
    LeafIsItself(value.scalar, ctx, env, 1);
  }

  /** For instance, a parameter's value picked from a list is declared different from itself. */
  lemma EqualsComparesUnresolvedText(ctx: Context, env: Environment, name: string)
    requires AgreesOnInputs(ctx, env) && name in ctx.supplied && name in ctx.declared
    requires PseudoOf(name).None? && name !in ctx.resourceIds
    requires ctx.host.textOf(RefTo(name)) != ctx.supplied[name]
    ensures var e := EqualsOf(SelectFirst(RefTo(name)), Leaf(Str(ctx.supplied[name])));
            EvaluateExpression(e, ctx, 0, {}) == No && Holds(e, ctx, env)
  {
    hide EvaluateExpression, Holds, PseudoOf, FnOf, Means, Ends, Resolve;
    SelectedMeans(ctx, env, name);
    SelectedResolves(RefTo(name), ctx, 1);
    RefIsCall(name);
    EndsDecide(SelectFirst(RefTo(name)), ctx, 1);
    RawCallMisleads(SelectFirst(RefTo(name)), ctx, env);
  }

  /** A comparison in which an operand does not deploy to a scalar is decided all the same,
      although the template language gives it no truth: for either truth there is a deployment,
      so the verdict is wrong in one of them. */
  lemma StructuresAreDecidedBlindly(left: Node, right: Node, ctx: Context, env: Environment, trust: Trust, truth: bool)
    requires Setting(ctx, env, trust) && Resolve(left, ctx, 1).Known? && Resolve(right, ctx, 1).Known?
    requires !(Means(left, ctx, env).Plain? && Means(right, ctx, env).Plain?)
    ensures var e := EqualsOf(left, right);
            var other := env.(otherTruth := n => if n == e then truth else env.otherTruth(n));
            && Setting(ctx, other, trust)
            && !EvaluateExpression(e, ctx, 0, {}).Undecided?
            && Holds(e, ctx, other) == truth
  {
    hide EvaluateExpression, Holds, Lawful, Setting, Means, Resolve, FnOf, Occurs;
    var e := EqualsOf(left, right);
    var other := env.(otherTruth := n => if n == e then truth else env.otherTruth(n));
    EqualsIsCall(left, right);
    if Lawful(e, ctx, trust) { LawfulEqualsIsPlain(left, right, ctx, env, trust); }
    SettingElsewhere(ctx, env, other, trust, e);
    if Occurs(e, left) { PartIsNoLarger(e, left); }
    if Occurs(e, right) { PartIsNoLarger(e, right); }
    MeansElsewhere(left, ctx, env, other, e);
    MeansElsewhere(right, ctx, env, other, e);
    EqualsUnfolds(left, right, ctx, other);
  }

  lemma EqualsIsCall(left: Node, right: Node)
    ensures var e := EqualsOf(left, right);
            IsCall(e) && Callee(e) == EqualsFn && Arg(e) == List([left, right]) && left < e && right < e
  {
    hide FnOf;
    CallNames();
    var e := EqualsOf(left, right);
    assert e.entries[0].value < e;
    assert Arg(e).items[0] == left && Arg(e).items[1] == right;
    assert left < Arg(e) && right < Arg(e);
  }

  lemma LawfulEqualsIsPlain(left: Node, right: Node, ctx: Context, env: Environment, trust: Trust)
    requires Setting(ctx, env, trust) && Lawful(EqualsOf(left, right), ctx, trust)
    requires Resolve(left, ctx, 1).Known? && Resolve(right, ctx, 1).Known?
    ensures Means(left, ctx, env).Plain? && Means(right, ctx, env).Plain?
  {
    hide Resolve, FnOf, Setting, Lawful;
    EqualsIsCall(left, right);
    var e := EqualsOf(left, right);
    assert Lawful(Arg(e), ctx, trust) && LawfulCall(EqualsFn, Arg(e), ctx, trust) by { CallIsLawful(e, ctx, trust); }
    LawfulParts(Arg(e), ctx, trust);
    assert Arg(e).items[0] == left && Arg(e).items[1] == right;
    forall n | n == left || n == right
      ensures Means(n, ctx, env).Plain?
    {
      ResolveImproves(n, ctx, ctx, 1, 0, false);
      ResolveAgrees(n, ctx, env, trust, 1);
    }
  }

  lemma CallIsLawful(e: Node, ctx: Context, trust: Trust)
    requires IsCall(e) && Lawful(e, ctx, trust)
    ensures Lawful(Arg(e), ctx, trust) && LawfulCall(Callee(e), Arg(e), ctx, trust)
  {
    hide LawfulCall, FnOf;
  }

  // ----- selecting -----

  /** A known selection deploys as resolved, in every deployment, exactly when it picks from a list
      by a position that is not negative. */
  lemma SelectionIsRightExactly(n: Node, ctx: Context, env: Environment, trust: Trust, depth: nat, index: Scalar, candidates: Node, position: int)
    requires IsCall(n) && Callee(n).SelectFn? && Takes(Arg(n), 2)
    requires Setting(ctx, env, trust) && Lawful(Arg(n), ctx, trust) && depth <= MAX_DEPTH
    requires Resolve(Arg(n).items[0], ctx, depth + 1).Known? && Resolve(Arg(n).items[0], ctx, depth + 1).value == Leaf(index)
    requires Resolve(Arg(n).items[1], ctx, depth + 1).Known? && Resolve(Arg(n).items[1], ctx, depth + 1).value == candidates
    requires IndexOf(index, ctx.host) == Some(position) && Pick(candidates, position).Some?
    ensures (forall env' :: Setting(ctx, env', trust) ==> Means(n, ctx, env') == Means(Pick(candidates, position).value, ctx, env'))
            <==> position >= 0 && candidates.List?
  {
    hide Resolve, Lawful, Setting, Means, IndexOf, Pick, FnOf;
    var picked := Pick(candidates, position).value;
    if position >= 0 && candidates.List? {
      forall env' | Setting(ctx, env', trust)
        ensures Means(n, ctx, env') == Means(picked, ctx, env')
      {
        SelectOutsideTheGuard(n, ctx, env', trust, depth, index, candidates, position);
        CallsMean(n, ctx, env');
      }
    } else {
      var env' := Elsewhere(n, picked, ctx, env);
      SelectionGoesWrong(n, ctx, env, trust, depth, index, candidates, position);
      assert Setting(ctx, env', trust) && Means(n, ctx, env') != Means(picked, ctx, env');
    }
  }

  lemma CallsMean(n: Node, ctx: Context, env: Environment)
    requires IsCall(n)
    ensures Means(n, ctx, env) == CallMeans(n, ctx, env)
  {
    hide CallMeans, FnOf;
  }

  /** The same deployment, but for a call that it gives another value than a term has. */
  function Elsewhere(call: Node, term: Node, ctx: Context, env: Environment): Environment {
    var value := if Means(term, ctx, env) == Absent then Plain(Null) else Absent;
    env.(other := n => if n == call then value else env.other(n))
  }

  lemma SelectionGoesWrong(n: Node, ctx: Context, env: Environment, trust: Trust, depth: nat, index: Scalar, candidates: Node, position: int)
    requires IsCall(n) && Callee(n).SelectFn? && Takes(Arg(n), 2)
    requires Setting(ctx, env, trust) && Lawful(Arg(n), ctx, trust) && depth <= MAX_DEPTH
    requires Resolve(Arg(n).items[0], ctx, depth + 1).Known? && Resolve(Arg(n).items[0], ctx, depth + 1).value == Leaf(index)
    requires Resolve(Arg(n).items[1], ctx, depth + 1).Known? && Resolve(Arg(n).items[1], ctx, depth + 1).value == candidates
    requires IndexOf(index, ctx.host) == Some(position) && Pick(candidates, position).Some?
    requires position < 0 || !candidates.List?
    ensures var picked := Pick(candidates, position).value; var env' := Elsewhere(n, picked, ctx, env);
            Setting(ctx, env', trust) && Means(n, ctx, env') != Means(picked, ctx, env')
  {
    hide Resolve, Lawful, Setting, Means, CallMeans, IndexOf, FnOf, Occurs, Pick;
    var picked := Pick(candidates, position).value;
    var env' := Elsewhere(n, picked, ctx, env);
    assert Literal(ctx.mappings) by { MappingsAreLiteral(ctx, env, trust); }
    if Lawful(n, ctx, trust) { LawfulSelectIsOrdinary(n, ctx, trust, depth, index, candidates, position); }
    SettingElsewhere(ctx, env, env', trust, n);
    ArgumentsAreSmaller(n);
    NoCallInItsParts(n, Arg(n).items[1], ctx, depth + 1);
    PickIsPart(candidates, position);
    if Occurs(n, picked) {
      if candidates.List? { PartOfPart(n, picked, candidates); } else { PartsDoNotOccurInLeaf(n, picked); }
    }
    MeansElsewhere(picked, ctx, env, env', n);
    SelectOutsideTheGuard(n, ctx, env', trust, depth, index, candidates, position);
    CallsMean(n, ctx, env');
  }

  lemma PartsDoNotOccurInLeaf(call: Node, leaf: Node)
    requires IsCall(call) && leaf.Leaf?
    ensures !Occurs(call, leaf)
  {
  }

  lemma ArgumentsAreSmaller(n: Node)
    requires IsCall(n) && Arg(n).List?
    ensures forall i :: 0 <= i < |Arg(n).items| ==> Arg(n).items[i] < n
  {
    hide FnOf;
    assert n.entries[0].value < n;
  }

  lemma MappingsAreLiteral(ctx: Context, env: Environment, trust: Trust)
    requires Setting(ctx, env, trust)
    ensures Literal(ctx.mappings)
  {
  }

  lemma LawfulSelectIsOrdinary(n: Node, ctx: Context, trust: Trust, depth: nat, index: Scalar, candidates: Node, position: int)
    requires IsCall(n) && Callee(n).SelectFn? && Takes(Arg(n), 2) && Lawful(n, ctx, trust) && Literal(ctx.mappings)
    requires Resolve(Arg(n).items[0], ctx, depth + 1).Known? && Resolve(Arg(n).items[0], ctx, depth + 1).value == Leaf(index)
    requires Resolve(Arg(n).items[1], ctx, depth + 1).Known? && Resolve(Arg(n).items[1], ctx, depth + 1).value == candidates
    requires IndexOf(index, ctx.host) == Some(position) && Pick(candidates, position).Some?
    ensures position >= 0 && candidates.List?
  {
    hide Resolve, Lawful, IndexOf, FnOf;
    CallIsLawful(n, ctx, trust);
    ResolveImproves(Arg(n).items[0], ctx, ctx, depth + 1, 0, false);
    ResolveImproves(Arg(n).items[1], ctx, ctx, depth + 1, 0, false);
  }

  /** For instance, position -1 is resolved to the last element of a list, and a deployment may
      find something else. */
  lemma LastIsSelected(first: Scalar, last: Scalar, ctx: Context, env: Environment, trust: Trust)
    requires Setting(ctx, env, trust)
    ensures var n := Dict([Entry("Fn::Select", List([Leaf(Int(-1)), List([Leaf(first), Leaf(last)])]))]);
            && Resolve(n, ctx, 0) == Known(Leaf(last), FromTemplate)
            && exists env' :: Setting(ctx, env', trust) && Means(n, ctx, env') != Plain(last)
  {
    hide Setting, FnOf, Lawful, Means;
    CallNames();
    var list := List([Leaf(first), Leaf(last)]);
    var n := Dict([Entry("Fn::Select", List([Leaf(Int(-1)), list]))]);
    assert IsCall(n) && Callee(n) == SelectFn && Arg(n).items == [Leaf(Int(-1)), list];
    assert Resolve(n, ctx, 0) == ResolveCall(n, ctx, 0) == ResolveSelect(Arg(n), ctx, 0);
    assert Resolve(list, ctx, 1) == Known(list, FromTemplate) && Resolve(Leaf(Int(-1)), ctx, 1) == Known(Leaf(Int(-1)), FromTemplate);
    assert Pick(list, -1) == Some(Leaf(last));
    LiteralListIsLawful(Int(-1), first, last, ctx, trust);
    SelectionGoesWrong(n, ctx, env, trust, 0, Int(-1), list, -1);
    LeafIsItself(last, ctx, Elsewhere(n, Leaf(last), ctx, env), 1);
  }

  lemma LiteralListIsLawful(index: Scalar, first: Scalar, last: Scalar, ctx: Context, trust: Trust)
    ensures Lawful(List([Leaf(index), List([Leaf(first), Leaf(last)])]), ctx, trust)
  {
  }

  // ----- joining -----

  /** The texts a join is made of, as resolved and as deployed. */
  function PieceTexts(scalars: seq<Scalar>): seq<string> {
    seq(|scalars|, i requires 0 <= i < |scalars| => PieceText(scalars[i]))
  }

  function DeployedPieces(scalars: seq<Scalar>, env: Environment): seq<string> {
    seq(|scalars|, i requires 0 <= i < |scalars| => env.text(scalars[i]))
  }

  /** A join over parts that resolve to the scalars they deploy to is known, and right exactly when
      the two readings of its parts make the same text. */
  lemma JoinedTextExactly(delimiter: string, parts: seq<Node>, scalars: seq<Scalar>, ctx: Context, env: Environment, depth: nat)
    requires depth < MAX_DEPTH && |parts| == |scalars|
    requires forall i :: 0 <= i < |parts| ==> Resolve(parts[i], ctx, depth + 1).Known? && Resolve(parts[i], ctx, depth + 1).value == Leaf(scalars[i])
    requires forall i :: 0 <= i < |parts| ==> Means(parts[i], ctx, env) == Plain(scalars[i])
    ensures var join, text := JoinOf(delimiter, parts), Intersperse(delimiter, PieceTexts(scalars));
            && Resolve(join, ctx, depth).Known? && Resolve(join, ctx, depth).value == Leaf(Str(text))
            && Means(join, ctx, env) == Plain(Str(Intersperse(delimiter, DeployedPieces(scalars, env))))
  {
    hide FnOf, PieceText, JoinPieces, Intersperse, Resolve, Means, PieceTexts;
    JoinMeansText(delimiter, parts, scalars, ctx, env);
    PiecesAreTexts(parts, scalars, ctx, depth);
    JoinResolves(delimiter, parts, ctx, depth);
  }

  lemma JoinResolves(delimiter: string, parts: seq<Node>, ctx: Context, depth: nat)
    requires depth < MAX_DEPTH
    ensures var r, pieces := Resolve(JoinOf(delimiter, parts), ctx, depth), JoinPieces(parts, ctx, depth);
            if pieces.None? then r == Unknown(Join, [])
            else r == Known(Leaf(Str(Intersperse(delimiter, pieces.value.texts))), Weakest(pieces.value.provenances))
  {
    hide JoinPieces, FnOf, Intersperse;
    JoinName();
    var n := JoinOf(delimiter, parts);
    assert IsCall(n) && Callee(n) == JoinFn;
    assert Resolve(n, ctx, depth) == ResolveCall(n, ctx, depth) == ResolveJoin(Arg(n), ctx, depth);
    assert Resolve(List(parts), ctx, depth + 1) == Known(List(parts), FromTemplate);
    assert JoinList(List(parts), ctx, depth) == List(parts);
    assert Arg(n).items == [Leaf(Str(delimiter)), List(parts)];
  }

  lemma JoinMeansText(delimiter: string, parts: seq<Node>, scalars: seq<Scalar>, ctx: Context, env: Environment)
    requires |parts| == |scalars| && forall i :: 0 <= i < |parts| ==> Means(parts[i], ctx, env) == Plain(scalars[i])
    ensures Means(JoinOf(delimiter, parts), ctx, env) == Plain(Str(Intersperse(delimiter, DeployedPieces(scalars, env))))
  {
    hide FnOf, Intersperse;
    JoinName();
    var join, values := JoinOf(delimiter, parts), MeansEach(parts, ctx, env);
    assert IsCall(join) && Callee(join) == JoinFn && Arg(join).items == [Leaf(Str(delimiter)), List(parts)];
    assert Means(List(parts), ctx, env) == Many(values);
    assert forall i :: 0 <= i < |values| ==> values[i] == Plain(scalars[i]);
    assert DeployedTexts(values, env) == DeployedPieces(scalars, env);
    assert Means(join, ctx, env) == CallMeans(join, ctx, env);
  }

  lemma {:induction false} PiecesAreTexts(parts: seq<Node>, scalars: seq<Scalar>, ctx: Context, depth: nat)
    requires depth < MAX_DEPTH && |parts| == |scalars|
    requires forall i :: 0 <= i < |parts| ==> Resolve(parts[i], ctx, depth + 1).Known? && Resolve(parts[i], ctx, depth + 1).value == Leaf(scalars[i])
    ensures JoinPieces(parts, ctx, depth).Some? && JoinPieces(parts, ctx, depth).value.texts == PieceTexts(scalars)
    decreases |parts|
  {
    hide Resolve, PieceText;
    if parts != [] {
      assert forall i :: 0 <= i < |parts[1..]| ==> parts[1..][i] == parts[i + 1] && scalars[1..][i] == scalars[i + 1];
      PiecesAreTexts(parts[1..], scalars[1..], ctx, depth);
      assert PieceTexts(scalars) == [PieceText(scalars[0])] + PieceTexts(scalars[1..]);
    }
  }

  /** Where every other part reads alike, the join is right exactly when this one does: `true` is
      enough to spoil it. */
  lemma JoinedScalarExactly(delimiter: string, parts: seq<Node>, scalars: seq<Scalar>, k: nat, ctx: Context, env: Environment, depth: nat)
    requires depth < MAX_DEPTH && |parts| == |scalars| && k < |scalars|
    requires forall i :: 0 <= i < |parts| ==> Resolve(parts[i], ctx, depth + 1).Known? && Resolve(parts[i], ctx, depth + 1).value == Leaf(scalars[i])
    requires forall i :: 0 <= i < |parts| ==> Means(parts[i], ctx, env) == Plain(scalars[i])
    requires forall i :: 0 <= i < |scalars| && i != k ==> JoinsAlike(scalars[i], env)
    ensures var join := JoinOf(delimiter, parts); var r := Resolve(join, ctx, depth);
            && r.Known? && r.value.Leaf?
            && (Means(join, ctx, env) == Plain(r.value.scalar) <==> JoinsAlike(scalars[k], env))
  {
    hide FnOf, PieceText, Intersperse, Resolve, Means;
    JoinedTextExactly(delimiter, parts, scalars, ctx, env, depth);
    var xs, ys := PieceTexts(scalars), DeployedPieces(scalars, env);
    OnePieceDecides(delimiter, xs, ys, k);
  }

  lemma {:induction false} OnePieceDecides(delimiter: string, xs: seq<string>, ys: seq<string>, k: nat)
    requires |xs| == |ys| && k < |xs| && forall i :: 0 <= i < |xs| && i != k ==> xs[i] == ys[i]
    ensures Intersperse(delimiter, xs) == Intersperse(delimiter, ys) <==> xs[k] == ys[k]
    decreases |xs|
  {
    if |xs| > 1 {
      var restX, restY := Intersperse(delimiter, xs[1..]), Intersperse(delimiter, ys[1..]);
      if k == 0 {
        assert xs[1..] == ys[1..];
        SameTail(xs[0], ys[0], delimiter + restX);
        assert xs[0] + delimiter + restX == xs[0] + (delimiter + restX);
        assert ys[0] + delimiter + restY == ys[0] + (delimiter + restX);
      } else {
        OnePieceDecides(delimiter, xs[1..], ys[1..], k - 1);
        SameHead(xs[0] + delimiter, restX, restY);
      }
    }
  }

  lemma SameTail(a: string, b: string, tail: string)
    ensures a + tail == b + tail <==> a == b
  {
    if a + tail == b + tail {
      assert |a| == |b|;
      assert a == (a + tail)[..|a|] && b == (b + tail)[..|b|];
    }
  }

  lemma SameHead(head: string, a: string, b: string)
    ensures head + a == head + b <==> a == b
  {
    if head + a == head + b { assert a == (head + a)[|head|..] && b == (head + b)[|head|..]; }
  }

  function JoinOf(delimiter: string, parts: seq<Node>): Node {
    Dict([Entry("Fn::Join", List([Leaf(Str(delimiter)), List(parts)]))])
  }

  lemma JoinName()
    ensures FnOf("Fn::Join") == Some(JoinFn)
  {
    assert |"Fn::Join"| == 8 && "Fn::Join"[4] == 'J' && "Fn::Cidr"[4] == 'C' && "Ref"[0] == 'R';
  }

  // ----- the account number -----

  /** The account number is a placeholder, and a comparison with it is decided all the same: the
      verdict is right exactly when the text compared is neither the placeholder nor the real
      account, or they are the same. */
  lemma PlaceholderAccountDecides(ctx: Context, env: Environment, account: string, text: string)
    requires AgreesOnInputs(ctx, env) && env.pseudo(AccountId) == Plain(Str(account))
    ensures var e := EqualsOf(RefTo("AWS::AccountId"), Leaf(Str(text))); var v := EvaluateExpression(e, ctx, 0, {});
            && !v.Undecided?
            && (VerdictAgrees(v, Holds(e, ctx, env)) <==> account == ctx.accountId || (text != account && text != ctx.accountId))
  {
    hide EvaluateExpression, Holds, FnOf;
    AccountName();
    EqualsUnfolds(RefTo("AWS::AccountId"), Leaf(Str(text)), ctx, env);
    RefIsCall("AWS::AccountId");
    var call := RefTo("AWS::AccountId");
    assert Means(call, ctx, env) == CallMeans(call, ctx, env) == Plain(Str(account));
    assert Resolve(call, ctx, 1) == ResolveCall(call, ctx, 1) == Known(Leaf(Str(ctx.accountId)), FromTemplate);
    assert Resolve(Leaf(Str(text)), ctx, 1) == Known(Leaf(Str(text)), FromTemplate);
  }

  lemma AccountName()
    ensures PseudoOf("AWS::AccountId") == Some(AccountId)
  {
    assert "AWS::AccountId"[5] == 'A' && "AWS::Region"[5] == 'R';
  }

  /** Everything but the account number, given defaults, and strings and integers wherever text
      matters. */
  function AnyAccount(conditions: set<string>, parameters: set<string>): Trust {
    var texts := (s: Scalar) => s.Str? || s.Int?;
    Trust(conditions, {Region, Partition, StackName, StackId, UrlSuffix, NoValue, NotificationArns}, parameters, texts, texts)
  }

  lemma AnyAccountIsWarranted(ctx: Context, env: Environment, conditions: set<string>, parameters: set<string>)
    requires AgreesOnInputs(ctx, env) && SatisfiesConditions(ctx, env, conditions)
    requires env.pseudo(Region) == Plain(Str(ctx.region)) && env.pseudo(Partition) == Plain(Str(ctx.partition))
    requires env.pseudo(StackName) == Plain(Str(ctx.stackName)) && env.pseudo(UrlSuffix) == Plain(Str(ctx.urlSuffix))
    requires (forall p :: p in parameters ==> ParameterAgrees(p, ctx, env)) && forall i :: env.text(Int(i)) == IntText(i)
    ensures Warrants(ctx, env, AnyAccount(conditions, parameters))
  {
    hide SatisfiesConditions, ParameterAgrees, IntText;
  }

  /** A template that does not mention the account, and compares and joins only strings and
      integers, is resolved soundly whatever account it is deployed to, as far as the defaults
      it uses are the deployed ones. */
  lemma SoundForEveryAccount(n: Node, ctx: Context, env: Environment, conditions: set<string>, parameters: set<string>, depth: nat)
    requires AgreesOnInputs(ctx, env) && SatisfiesConditions(ctx, env, conditions) && Literal(ctx.mappings)
    requires env.pseudo(Region) == Plain(Str(ctx.region)) && env.pseudo(Partition) == Plain(Str(ctx.partition))
    requires env.pseudo(StackName) == Plain(Str(ctx.stackName)) && env.pseudo(UrlSuffix) == Plain(Str(ctx.urlSuffix))
    requires (forall p :: p in parameters ==> ParameterAgrees(p, ctx, env)) && forall i :: env.text(Int(i)) == IntText(i)
    requires Lawful(n, ctx, AnyAccount(conditions, parameters))
    requires forall c :: c in conditions && c in ctx.conditions ==> Lawful(ctx.conditions[c], ctx, AnyAccount(conditions, parameters))
    ensures Agrees(Resolve(n, ctx, depth), Means(n, ctx, env), ctx, env, AnyAccount(conditions, parameters))
    ensures forall c :: c in conditions ==> VerdictAgrees(EvaluateCondition(Leaf(Str(c)), ctx, depth, {}), env.truth(c))
  {
    hide Lawful, Resolve, Means, SatisfiesConditions, EvaluateCondition, Agrees, ParameterAgrees, Warrants, Literal;
    var trust := AnyAccount(conditions, parameters);
    AnyAccountIsWarranted(ctx, env, conditions, parameters);
    ResolveAgrees(n, ctx, env, trust, depth);
    forall c | c in conditions
      ensures VerdictAgrees(EvaluateCondition(Leaf(Str(c)), ctx, depth, {}), env.truth(c))
    {
      ConditionAgrees(Leaf(Str(c)), ctx, env, trust, depth, {});
    }
  }
}
