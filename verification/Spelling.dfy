/** What each intrinsic function, as a template spells it, resolves to. */
module Spelling {
  import opened Templates
  import opened SubTemplates
  import opened Intrinsics

  function Call(name: string, arg: Node): Node {
    Dict([Entry(name, arg)])
  }

  function Text(s: string): Node {
    Leaf(Str(s))
  }

  // ----- names -----

  lemma NamesDiffer()
    ensures |"Ref"| == 3 && |"Condition"| == 9 && |"Fn::Split"| == 9 && "Condition"[0] == 'C' && "Fn::Split"[0] == 'F'
    ensures |"Fn::If"| == 6 && |"Fn::Or"| == 6 && "Fn::If"[4] == 'I' && "Fn::Or"[4] == 'O'
    ensures |"Fn::And"| == 7 && |"Fn::Not"| == 7 && |"Fn::Sub"| == 7 && "Fn::And"[4] == 'A' && "Fn::Not"[4] == 'N' && "Fn::Sub"[4] == 'S'
    ensures |"Fn::Cidr"| == 8 && |"Fn::Join"| == 8 && "Fn::Cidr"[4] == 'C' && "Fn::Join"[4] == 'J'
    ensures |"Fn::Base64"| == 10 && |"Fn::Equals"| == 10 && |"Fn::GetAZs"| == 10 && |"Fn::GetAtt"| == 10 && |"Fn::Length"| == 10 && |"Fn::Select"| == 10
    ensures "Fn::Base64"[4] == 'B' && "Fn::Equals"[4] == 'E' && "Fn::Length"[4] == 'L' && "Fn::Select"[4] == 'S' && "Fn::GetAZs"[4] == 'G' && "Fn::GetAtt"[4] == 'G'
    ensures "Fn::GetAZs"[8] == 'Z' && "Fn::GetAtt"[8] == 't'
    ensures |"Fn::ForEach"| == 11 && |"Fn::FindInMap"| == 13 && |"Fn::Transform"| == 13 && "Fn::FindInMap"[4] == 'F' && "Fn::Transform"[4] == 'T'
    ensures |"Fn::ImportValue"| == 15 && |"Fn::ToJsonString"| == 16
  {
  }

  /** The names of the functions, group by group. */
  lemma ReferenceNames()
    ensures FnOf("Ref") == Some(RefFn) && FnOf("Fn::GetAtt") == Some(GetAttFn) && FnOf("Fn::FindInMap") == Some(FindInMapFn)
    ensures FnOf("Fn::If") == Some(IfFn)
  {
    NamesDiffer();
  }

  lemma ConditionNames()
    ensures FnOf("Condition") == Some(ConditionFn) && FnOf("Fn::And") == Some(AndFn) && FnOf("Fn::Or") == Some(OrFn) && FnOf("Fn::Not") == Some(NotFn)
  {
    NamesDiffer();
  }

  lemma TextNames()
    ensures FnOf("Fn::Join") == Some(JoinFn) && FnOf("Fn::Select") == Some(SelectFn)
    ensures FnOf("Fn::Split") == Some(SplitFn) && FnOf("Fn::Sub") == Some(SubFn)
  {
    NamesDiffer();
  }

  lemma OpaqueNames()
    ensures FnOf("Fn::Base64") == Some(Base64Fn) && FnOf("Fn::Cidr") == Some(CidrFn) && FnOf("Fn::GetAZs") == Some(GetAZsFn)
    ensures FnOf("Fn::ImportValue") == Some(ImportValueFn)
  {
    NamesDiffer();
  }

  lemma UnsupportedNames()
    ensures FnOf("Fn::Transform") == Some(TransformFn) && FnOf("Fn::ForEach") == Some(ForEachFn)
    ensures FnOf("Fn::Length") == Some(LengthFn) && FnOf("Fn::ToJsonString") == Some(ToJsonStringFn)
  {
    NamesDiffer();
  }

  lemma CallIs(name: string, arg: Node)
    ensures FnOf(name).Some? ==> IsCall(Call(name, arg)) && Callee(Call(name, arg)) == FnOf(name).value && Arg(Call(name, arg)) == arg
  {
  }

  lemma CallResolves(name: string, arg: Node, ctx: Context, depth: nat)
    requires FnOf(name).Some? && depth <= MAX_DEPTH
    ensures IsCall(Call(name, arg)) && Callee(Call(name, arg)) == FnOf(name).value && Arg(Call(name, arg)) == arg
    ensures Resolve(Call(name, arg), ctx, depth) == ResolveCall(Call(name, arg), ctx, depth)
  {
    hide FnOf, ResolveCall;
  }

  // ----- parameters -----

  /** A parameter resolves to its supplied value, or else to its default, and says which. */
  lemma RefSpelled(name: string, ctx: Context, depth: nat)
    requires depth <= MAX_DEPTH && PseudoOf(name).None?
    ensures var r := Resolve(Call("Ref", Text(name)), ctx, depth);
            r == if name in ctx.resourceIds then Reference(name, None)
                 else if name !in ctx.declared then Unknown(RefParameter, [])
                 else if name in ctx.supplied then Known(Text(ctx.supplied[name]), CliParameter)
                 else if name in ctx.defaults then Known(Text(ctx.defaults[name]), TemplateDefault)
                 else Unknown(MissingParameter, [])
  {
    hide FnOf, PseudoOf;
    ReferenceNames();
    CallResolves("Ref", Text(name), ctx, depth);
  }

  lemma PseudoNames()
    ensures PseudoOf("AWS::Region") == Some(Region) && PseudoOf("AWS::AccountId") == Some(AccountId) && PseudoOf("AWS::Partition") == Some(Partition)
    ensures PseudoOf("AWS::StackName") == Some(StackName) && PseudoOf("AWS::StackId") == Some(StackId) && PseudoOf("AWS::URLSuffix") == Some(UrlSuffix)
    ensures PseudoOf("AWS::NoValue") == Some(NoValue) && PseudoOf("AWS::NotificationARNs") == Some(NotificationArns)
  {
    assert |"AWS::Region"| == 11 && |"AWS::AccountId"| == 14 && |"AWS::Partition"| == 14 && |"AWS::StackName"| == 14 && |"AWS::StackId"| == 12;
    assert |"AWS::URLSuffix"| == 14 && |"AWS::NoValue"| == 12 && |"AWS::NotificationARNs"| == 21;
    assert "AWS::AccountId"[5] == 'A' && "AWS::Partition"[5] == 'P' && "AWS::StackName"[5] == 'S' && "AWS::URLSuffix"[5] == 'U';
    assert "AWS::StackId"[5] == 'S' && "AWS::NoValue"[5] == 'N';
  }

  lemma PseudoSpelled(ctx: Context, depth: nat)
    requires depth <= MAX_DEPTH
    ensures Resolve(Call("Ref", Text("AWS::Region")), ctx, depth) == Known(Text(ctx.region), FromTemplate)
    ensures Resolve(Call("Ref", Text("AWS::AccountId")), ctx, depth) == Known(Text(ctx.accountId), FromTemplate)
    ensures Resolve(Call("Ref", Text("AWS::Partition")), ctx, depth) == Known(Text(ctx.partition), FromTemplate)
    ensures Resolve(Call("Ref", Text("AWS::StackName")), ctx, depth) == Known(Text(ctx.stackName), FromTemplate)
    ensures Resolve(Call("Ref", Text("AWS::URLSuffix")), ctx, depth) == Known(Text(ctx.urlSuffix), FromTemplate)
    ensures Resolve(Call("Ref", Text("AWS::NoValue")), ctx, depth) == Omitted
    ensures Resolve(Call("Ref", Text("AWS::StackId")), ctx, depth) == Unknown(RefPseudoParameter, [])
    ensures Resolve(Call("Ref", Text("AWS::NotificationARNs")), ctx, depth) == Unknown(RefPseudoParameter, [])
  {
    hide FnOf, PseudoOf, Resolve;
    PseudoNames();
    PseudoResolves("AWS::Region", ctx, depth);
    PseudoResolves("AWS::AccountId", ctx, depth);
    PseudoResolves("AWS::Partition", ctx, depth);
    PseudoResolves("AWS::StackName", ctx, depth);
    PseudoResolves("AWS::URLSuffix", ctx, depth);
    PseudoResolves("AWS::NoValue", ctx, depth);
    PseudoResolves("AWS::StackId", ctx, depth);
    PseudoResolves("AWS::NotificationARNs", ctx, depth);
  }

  lemma PseudoResolves(name: string, ctx: Context, depth: nat)
    requires depth <= MAX_DEPTH && PseudoOf(name).Some?
    ensures Resolve(Call("Ref", Text(name)), ctx, depth) == ResolvePseudo(PseudoOf(name).value, ctx)
  {
    hide FnOf, PseudoOf, ResolvePseudo;
    ReferenceNames();
    CallResolves("Ref", Text(name), ctx, depth);
  }

  // ----- attributes -----

  function Texts(parts: seq<string>): seq<Node> {
    seq(|parts|, i requires 0 <= i < |parts| => Text(parts[i]))
  }

  lemma AttributeIs(parts: seq<string>, host: Host)
    ensures AttributeName(Texts(parts), host) == if Intersperse(".", parts) == "" then None else Some(Intersperse(".", parts))
  {
    hide Intersperse;
    var items := Texts(parts);
    assert seq(|items|, i requires 0 <= i < |items| => TextOf(items[i], host)) == parts;
  }

  /** `Fn::GetAtt` names a resource of the template and, joined by dots, an attribute of it. */
  lemma GetAttSpelled(id: string, parts: seq<string>, ctx: Context, depth: nat)
    requires depth <= MAX_DEPTH
    ensures Resolve(Call("Fn::GetAtt", List([Text(id)] + Texts(parts))), ctx, depth)
            == if id in ctx.resourceIds then Reference(id, if Intersperse(".", parts) == "" then None else Some(Intersperse(".", parts)))
               else Unknown(GetAtt, [])
  {
    hide FnOf, Intersperse, AttributeName;
    ReferenceNames();
    var items := [Text(id)] + Texts(parts);
    CallResolves("Fn::GetAtt", List(items), ctx, depth);
    AttributeIs(parts, ctx.host);
    assert items[0] == Text(id) && items[1..] == Texts(parts);
  }

  /** A dotted slot of `Fn::Sub` stands for the same attribute: the name before the first dot, and
      all that follows it. */
  lemma DottedSlotIsGetAtt(id: string, attribute: string, local: seq<Entry>, ctx: Context, depth: nat)
    requires depth <= MAX_DEPTH && '.' !in id && Lookup(local, id + "." + attribute).None?
    ensures SlotValue(id + "." + attribute, local, ctx, depth) == Resolve(Call("Fn::GetAtt", List([Text(id), Text(attribute)])), ctx, depth)
  {
    hide FnOf, AttributeName, FirstDot;
    ReferenceNames();
    var name := id + "." + attribute;
    assert name[|id|] == '.' && forall j :: 0 <= j < |id| ==> name[j] == id[j];
    var dot := FirstDot(name, 0);
    assert dot == |id|;
    assert name[..dot] == id && name[dot + 1..] == attribute;
    CallResolves("Fn::GetAtt", List([Text(id), Text(attribute)]), ctx, depth);
  }

  // ----- branches -----

  /** `Fn::If` resolves to the branch its condition decides on; undecided, it lists the branches
      that are a string, an integer or a boolean. */
  lemma IfSpelled(condition: Node, yes: Node, no: Node, ctx: Context, depth: nat)
    requires depth <= MAX_DEPTH
    ensures var r := Resolve(Call("Fn::If", List([condition, yes, no])), ctx, depth);
            match EvaluateCondition(condition, ctx, depth + 1, {})
            case Yes => r == Resolve(yes, ctx, depth + 1)
            case No => r == Resolve(no, ctx, depth + 1)
            case Undecided => r.Unknown? && r.kind == If && r.scenarios == ScenarioOf(yes) + ScenarioOf(no)
  {
    hide FnOf, EvaluateCondition;
    ReferenceNames();
    var items := [condition, yes, no];
    CallResolves("Fn::If", List(items), ctx, depth);
    TwoScenarios(yes, no);
    assert items[1..] == [yes, no];
  }

  /** What a branch adds to the scenarios. */
  function ScenarioOf(branch: Node): seq<Scalar> {
    match branch
    case Leaf(Str(s)) => [Str(s)]
    case Leaf(Int(n)) => [Int(n)]
    case Leaf(Bool(b)) => [Bool(b)]
    case _ => []
  }

  lemma TwoScenarios(yes: Node, no: Node)
    ensures Scenarios([yes, no]) == ScenarioOf(yes) + ScenarioOf(no)
  {
    assert [yes, no][1..] == [no] && [no][1..] == [];
    assert Scenarios([no]) == ScenarioOf(no);
  }

  // ----- mappings -----

  /** `Fn::FindInMap` finds what the mapping holds under the three keys, and nothing else. */
  lemma FindInMapSpelled(name: string, top: string, second: string, ctx: Context, depth: nat)
    requires depth < MAX_DEPTH
    ensures var r := Resolve(Call("Fn::FindInMap", List([Text(name), Text(top), Text(second)])), ctx, depth);
            var found := Under(Under(Under(Some(ctx.mappings), name), top), second);
            r == if found.Some? then Known(found.value, FromTemplate) else Unknown(FindInMap, [])
  {
    hide FnOf, Resolve;
    ReferenceNames();
    var items := [Text(name), Text(top), Text(second)];
    CallResolves("Fn::FindInMap", List(items), ctx, depth);
    ThreeKeys(name, top, second, ctx, depth);
    assert items[..3] == items;
    ThreeSteps(ctx.mappings, name, top, second);
  }

  /** The entry of a mapping under a key. */
  function Under(n: Option<Node>, key: string): Option<Node> {
    if n.Some? && n.value.Dict? then Lookup(n.value.entries, key) else None
  }

  lemma ThreeKeys(name: string, top: string, second: string, ctx: Context, depth: nat)
    requires depth < MAX_DEPTH
    ensures MapKeys([Text(name), Text(top), Text(second)], ctx, depth) == Some(Pieces([name, top, second], [FromTemplate, FromTemplate, FromTemplate]))
    ensures Weakest([FromTemplate, FromTemplate, FromTemplate]) == FromTemplate
  {
    KeyAhead(second, [], Pieces([], []), ctx, depth);
    assert [Text(second)] + [] == [Text(second)] && [second] + [] == [second] && [FromTemplate] + [] == [FromTemplate];
    KeyAhead(top, [Text(second)], Pieces([second], [FromTemplate]), ctx, depth);
    assert [Text(top)] + [Text(second)] == [Text(top), Text(second)] && [top] + [second] == [top, second];
    assert [FromTemplate] + [FromTemplate] == [FromTemplate, FromTemplate];
    KeyAhead(name, [Text(top), Text(second)], Pieces([top, second], [FromTemplate, FromTemplate]), ctx, depth);
    assert [Text(name)] + [Text(top), Text(second)] == [Text(name), Text(top), Text(second)];
    assert [name] + [top, second] == [name, top, second] && [FromTemplate] + [FromTemplate, FromTemplate] == [FromTemplate, FromTemplate, FromTemplate];
  }

  lemma KeyAhead(key: string, parts: seq<Node>, rest: Pieces, ctx: Context, depth: nat)
    requires depth < MAX_DEPTH && MapKeys(parts, ctx, depth) == Some(rest)
    ensures MapKeys([Text(key)] + parts, ctx, depth) == Some(Pieces([key] + rest.texts, [FromTemplate] + rest.provenances))
  {
    assert ([Text(key)] + parts)[1..] == parts;
    assert Resolve(Text(key), ctx, depth + 1) == Known(Text(key), FromTemplate);
  }

  lemma StepDown(n: Node, key: string, keys: seq<string>)
    ensures Descend(n, [key] + keys) == if Under(Some(n), key).None? then None else Descend(Under(Some(n), key).value, keys)
  {
    assert ([key] + keys)[1..] == keys;
  }

  lemma ThreeSteps(n: Node, a: string, b: string, c: string)
    ensures Descend(n, [a, b, c]) == Under(Under(Under(Some(n), a), b), c)
  {
    hide Descend, Lookup;
    assert [a, b, c] == [a] + [b, c] && [b, c] == [b] + [c] && [c] == [c] + [];
    StepDown(n, a, [b, c]);
    var first := Under(Some(n), a);
    if first.Some? {
      StepDown(first.value, b, [c]);
      var second := Under(first, b);
      if second.Some? {
        StepDown(second.value, c, []);
        LastStepDown(Under(second, c));
      }
    }
  }

  lemma LastStepDown(n: Option<Node>)
    ensures n.Some? ==> Descend(n.value, []) == n
  {
  }

  // ----- conditions -----

  /** The verdict of a group is what its operands force: no matter how the undecided ones turn
      out. */
  lemma ConnectivesAreForced(vs: seq<Verdict>)
    ensures KleeneAnd(vs) == (if No in vs then No else if Undecided in vs then Undecided else Yes)
    ensures KleeneOr(vs) == (if Yes in vs then Yes else if Undecided in vs then Undecided else No)
  {
    if No !in vs && Undecided !in vs { forall v | v in vs ensures v == Yes {} }
    if Yes !in vs && Undecided !in vs { forall v | v in vs ensures v == No {} }
  }

  /** Conjunction and disjunction of conditions. */
  lemma GroupsSpelled(items: seq<Node>, ctx: Context, depth: nat, seen: set<string>)
    requires depth <= MAX_DEPTH
    ensures var vs := EvaluateEach(items, ctx, depth + 1, seen);
            && EvaluateExpression(Call("Fn::And", List(items)), ctx, depth, seen)
               == (if No in vs then No else if Undecided in vs then Undecided else Yes)
            && EvaluateExpression(Call("Fn::Or", List(items)), ctx, depth, seen)
               == (if Yes in vs then Yes else if Undecided in vs then Undecided else No)
  {
    hide FnOf, KleeneAnd, KleeneOr, EvaluateEach, Call, IsCall, Callee, Arg;
    ConditionNames();
    ConnectivesAreForced(EvaluateEach(items, ctx, depth + 1, seen));
    CallIs("Fn::And", List(items));
    CallIs("Fn::Or", List(items));
  }

  /** Negation, and the reference to a condition by name. */
  lemma NegationSpelled(item: Node, name: string, ctx: Context, depth: nat, seen: set<string>)
    requires depth <= MAX_DEPTH
    ensures EvaluateExpression(Call("Fn::Not", List([item])), ctx, depth, seen)
            == match EvaluateExpression(item, ctx, depth + 1, seen) case Yes => No case No => Yes case Undecided => Undecided
    ensures EvaluateExpression(Call("Condition", Text(name)), ctx, depth, seen) == EvaluateCondition(Text(name), ctx, depth + 1, seen)
  {
    hide FnOf, EvaluateCondition, Call, IsCall, Callee, Arg;
    ConditionNames();
    CallIs("Fn::Not", List([item]));
    CallIs("Condition", Text(name));
    assert EvaluateExpression(Call("Fn::Not", List([item])), ctx, depth, seen) == EvaluateNot(List([item]), ctx, depth + 1, seen);
  }

  // ----- functions that are never resolved -----

  lemma OpaqueSpelled(arg: Node, ctx: Context, depth: nat)
    requires depth <= MAX_DEPTH
    ensures Resolve(Call("Fn::ImportValue", arg), ctx, depth) == Unknown(ImportValue, [])
    ensures Resolve(Call("Fn::Base64", arg), ctx, depth) == Unknown(Base64, [])
    ensures Resolve(Call("Fn::Cidr", arg), ctx, depth) == Unknown(Cidr, [])
    ensures Resolve(Call("Fn::GetAZs", arg), ctx, depth) == Unknown(GetAzs, [])
  {
    hide FnOf, Resolve, IsCall, Callee, Arg, Call;
    OpaqueNames();
    CallResolves("Fn::ImportValue", arg, ctx, depth);
    CallResolves("Fn::Base64", arg, ctx, depth);
    CallResolves("Fn::Cidr", arg, ctx, depth);
    CallResolves("Fn::GetAZs", arg, ctx, depth);
  }

  lemma UnsupportedSpelled(arg: Node, ctx: Context, depth: nat)
    requires depth <= MAX_DEPTH
    ensures Resolve(Call("Fn::Transform", arg), ctx, depth) == Unknown(Transform, [])
    ensures Resolve(Call("Fn::ForEach", arg), ctx, depth) == Unknown(Unsupported, [])
    ensures Resolve(Call("Fn::Length", arg), ctx, depth) == Unknown(Unsupported, [])
    ensures Resolve(Call("Fn::ToJsonString", arg), ctx, depth) == Unknown(Unsupported, [])
  {
    hide FnOf, Resolve, IsCall, Callee, Arg, Call;
    UnsupportedNames();
    CallResolves("Fn::Transform", arg, ctx, depth);
    CallResolves("Fn::ForEach", arg, ctx, depth);
    CallResolves("Fn::Length", arg, ctx, depth);
    CallResolves("Fn::ToJsonString", arg, ctx, depth);
  }

  // ----- positions -----

  /** A position may be written as an integer, a string, a boolean or a fraction. */
  lemma PositionSpelled(index: Scalar, items: seq<Node>, ctx: Context, depth: nat)
    requires depth < MAX_DEPTH
    ensures var r := Resolve(Call("Fn::Select", List([Leaf(index), List(items)])), ctx, depth);
            var position := match index
                            case Null => None
                            case Bool(b) => Some(if b then 1 else 0)
                            case Int(n) => Some(n)
                            case Float(whole, _) => Some(whole)
                            case Str(s) => ctx.host.parseInt(s);
            && (position.None? ==> r == Unknown(Select, []))
            && (position.Some? && 0 <= position.value < |items| ==> r == Known(items[position.value], FromTemplate))
            && (position.Some? && -|items| <= position.value < 0 ==> r == Known(items[|items| + position.value], FromTemplate))
            && (position.Some? && !(-|items| <= position.value < |items|) ==> r == Unknown(Select, []))
  {
    hide FnOf;
    TextNames();
    var args := [Leaf(index), List(items)];
    CallResolves("Fn::Select", List(args), ctx, depth);
    assert Resolve(List(items), ctx, depth + 1) == Known(List(items), FromTemplate);
    assert Resolve(Leaf(index), ctx, depth + 1) == Known(Leaf(index), FromTemplate);
    assert ResolveCall(Call("Fn::Select", List(args)), ctx, depth) == ResolveSelect(List(args), ctx, depth);
  }

  /** A string may be selected from, too: its characters, from either end. */
  lemma CharacterSelected(position: int, s: string, ctx: Context, depth: nat)
    requires depth < MAX_DEPTH && -|s| <= position < |s|
    ensures Resolve(Call("Fn::Select", List([Leaf(Int(position)), Text(s)])), ctx, depth)
            == Known(Text([s[if position >= 0 then position else |s| + position]]), FromTemplate)
  {
    hide FnOf;
    TextNames();
    var args := [Leaf(Int(position)), Text(s)];
    CallResolves("Fn::Select", List(args), ctx, depth);
    assert Resolve(Text(s), ctx, depth + 1) == Known(Text(s), FromTemplate);
    assert Resolve(Leaf(Int(position)), ctx, depth + 1) == Known(Leaf(Int(position)), FromTemplate);
    assert ResolveCall(Call("Fn::Select", List(args)), ctx, depth) == ResolveSelect(List(args), ctx, depth);
  }

  // ----- slots -----

  /** An escaped slot is written out as it would be without the exclamation mark. */
  lemma EscapedSlot(name: string, rest: SubTemplate, local: seq<Entry>, ctx: Context, depth: nat)
    requires depth <= MAX_DEPTH
    ensures var tail := SubPieces(rest, local, ctx, depth);
            SubPieces(Slot("", "!" + name, rest), local, ctx, depth)
            == if tail.None? then None else Some(SubResult("${" + name + "}" + tail.value.text, tail.value.provenances))
  {
    assert ("!" + name)[1..] == name && IsEscape("!" + name);
    var tail := SubPieces(rest, local, ctx, depth);
    if tail.Some? { assert "" + ("${" + name + "}") + tail.value.text == "${" + name + "}" + tail.value.text; }
  }

  /** `Fn::Sub` takes a template alone, or with a mapping of local variables. */
  lemma SubSpelled(template: string, entries: seq<Entry>, ctx: Context, depth: nat)
    requires depth <= MAX_DEPTH
    ensures Resolve(Call("Fn::Sub", Text(template)), ctx, depth) == FromSub(SubPieces(ParseSub(template), [], ctx, depth))
    ensures Resolve(Call("Fn::Sub", List([Text(template), Dict(entries)])), ctx, depth) == FromSub(SubPieces(ParseSub(template), entries, ctx, depth))
  {
    hide FnOf, SubPieces, ParseSub;
    TextNames();
    CallResolves("Fn::Sub", Text(template), ctx, depth);
    CallResolves("Fn::Sub", List([Text(template), Dict(entries)]), ctx, depth);
    assert SubParts(Text(template)) == Some((template, []));
    assert SubParts(List([Text(template), Dict(entries)])) == Some((template, entries));
  }

  function FromSub(pieces: Option<SubResult>): Resolution {
    if pieces.None? then Unknown(Sub, []) else Known(Text(pieces.value.text), Weakest(pieces.value.provenances))
  }

  predicate IsText(n: Node) {
    n.Leaf? && n.scalar.Str?
  }

  /** Any other argument is malformed, but a second item that is no mapping only adds nothing. */
  lemma SubMalformed(arg: Node, ctx: Context, depth: nat)
    requires depth <= MAX_DEPTH
    ensures !IsText(arg) && !(Takes(arg, 2) && IsText(arg.items[0])) ==> Resolve(Call("Fn::Sub", arg), ctx, depth) == Unknown(Sub, [])
    ensures Takes(arg, 2) && IsText(arg.items[0]) && !arg.items[1].Dict? ==>
              Resolve(Call("Fn::Sub", arg), ctx, depth) == Resolve(Call("Fn::Sub", arg.items[0]), ctx, depth)
  {
    hide FnOf, SubPieces, ParseSub;
    TextNames();
    CallResolves("Fn::Sub", arg, ctx, depth);
    if Takes(arg, 2) { CallResolves("Fn::Sub", arg.items[0], ctx, depth); }
  }

  /** A slot stands for the local variable of its name, or else for what the name refers to. */
  lemma SlotSpelled(name: string, local: seq<Entry>, ctx: Context, depth: nat)
    requires depth <= MAX_DEPTH && '.' !in name
    ensures SlotValue(name, local, ctx, depth)
            == if Lookup(local, name).Some? then Resolve(Lookup(local, name).value, ctx, depth + 1)
               else Resolve(Call("Ref", Text(name)), ctx, depth)
  {
    hide FnOf, ResolveRef, FirstDot;
    ReferenceNames();
    CallResolves("Ref", Text(name), ctx, depth);
    assert FirstDot(name, 0) == |name|;
  }

  // ----- provenance -----

  const BY_RANK := [FromTemplate, CliParameter, TemplateDefault, ConfigResourceOverride, ConfigEnvironment, Historical, BuiltinDefault, FromNowhere]

  /** Of two provenances the one later in the list is kept. */
  lemma WeakestOfTwo(i: nat, j: nat)
    requires i < 8 && j < 8
    ensures Weakest([BY_RANK[i], BY_RANK[j]]) == BY_RANK[if i < j then j else i]
  {
    RanksAscend(i);
    RanksAscend(j);
    assert [BY_RANK[i], BY_RANK[j]][1..] == [BY_RANK[j]] && [BY_RANK[j]][1..] == [];
  }

  lemma RanksAscend(i: nat)
    requires i < 8
    ensures Precedence(BY_RANK[i]) == i
  {
  }
}
