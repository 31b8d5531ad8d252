/** Partial evaluation of intrinsic calls and three-valued evaluation of conditions.

    The functions are the specification.  The three handlers that the program writes as
    loops appear again at the end as methods, each proved equal to its function. */
module Intrinsics {
  import opened Templates
  import opened SubTemplates

  const MAX_DEPTH: nat := 60

  function Remaining(depth: nat): nat {
    if depth > MAX_DEPTH then 0 else MAX_DEPTH + 1 - depth
  }

  function Resolve(n: Node, ctx: Context, depth: nat): Resolution
    decreases Remaining(depth), 2
  {
    if depth > MAX_DEPTH then Unknown(Unsupported, [])
    else if !IsCall(n) then Known(n, FromTemplate)
    else ResolveCall(n, ctx, depth)
  }

  function ResolveCall(n: Node, ctx: Context, depth: nat): Resolution
    requires depth <= MAX_DEPTH && IsCall(n)
    decreases Remaining(depth), 1
  {
    var arg := Arg(n);
    match Callee(n)
    case RefFn => ResolveRef(arg, ctx)
    case ConditionFn => FromVerdict(EvaluateCondition(arg, ctx, depth + 1, {}))
    case GetAttFn => ResolveGetAtt(arg, ctx)
    case ImportValueFn => Unknown(ImportValue, [])
    case FindInMapFn => ResolveFindInMap(arg, ctx, depth)
    case IfFn => ResolveIf(arg, ctx, depth)
    case JoinFn => ResolveJoin(arg, ctx, depth)
    case SelectFn => ResolveSelect(arg, ctx, depth)
    case SplitFn => ResolveSplit(arg, ctx, depth)
    case SubFn => ResolveSub(arg, ctx, depth)
    case Base64Fn => Unknown(Base64, [])
    case CidrFn => Unknown(Cidr, [])
    case GetAZsFn => Unknown(GetAzs, [])
    case TransformFn => Unknown(Transform, [])
    case ForEachFn => Unknown(Unsupported, [])
    case LengthFn => Unknown(Unsupported, [])
    case ToJsonStringFn => Unknown(Unsupported, [])
    case AndFn => FromVerdict(EvaluateExpression(n, ctx, depth + 1, {}))
    case OrFn => FromVerdict(EvaluateExpression(n, ctx, depth + 1, {}))
    case NotFn => FromVerdict(EvaluateExpression(n, ctx, depth + 1, {}))
    case EqualsFn => FromVerdict(EvaluateExpression(n, ctx, depth + 1, {}))
  }

  /** A condition used as a value. */
  function FromVerdict(v: Verdict): Resolution {
    match v
    case Yes => Known(Leaf(Bool(true)), FromTemplate)
    case No => Known(Leaf(Bool(false)), FromTemplate)
    case Undecided => Unknown(If, [])
  }

  function ResolvePseudo(p: Pseudo, ctx: Context): Resolution {
    match p
    case Region => Known(Leaf(Str(ctx.region)), FromTemplate)
    case AccountId => Known(Leaf(Str(ctx.accountId)), FromTemplate)
    case Partition => Known(Leaf(Str(ctx.partition)), FromTemplate)
    case StackName => Known(Leaf(Str(ctx.stackName)), FromTemplate)
    case UrlSuffix => Known(Leaf(Str(ctx.urlSuffix)), FromTemplate)
    case NoValue => Omitted
    case StackId => Unknown(RefPseudoParameter, [])
    case NotificationArns => Unknown(RefPseudoParameter, [])
  }

  function ResolveParameter(name: string, ctx: Context): Resolution {
    if name in ctx.supplied then Known(Leaf(Str(ctx.supplied[name])), CliParameter)
    else if name in ctx.defaults then Known(Leaf(Str(ctx.defaults[name])), TemplateDefault)
    else Unknown(MissingParameter, [])
  }

  function ResolveRef(arg: Node, ctx: Context): Resolution {
    if !(arg.Leaf? && arg.scalar.Str?) then Unknown(RefParameter, [])
    else
      var name := arg.scalar.s;
      if PseudoOf(name).Some? then ResolvePseudo(PseudoOf(name).value, ctx)
      else if name in ctx.resourceIds then Reference(name, None)
      else if name in ctx.declared then ResolveParameter(name, ctx)
      else Unknown(RefParameter, [])
  }

  function Intersperse(delimiter: string, pieces: seq<string>): string {
    if pieces == [] then ""
    else if |pieces| == 1 then pieces[0]
    else pieces[0] + delimiter + Intersperse(delimiter, pieces[1..])
  }

  /** The attribute path of a `GetAtt` argument; an empty one counts as absent. */
  function AttributeName(parts: seq<Node>, host: Host): Option<string> {
    var text := Intersperse(".", seq(|parts|, i requires 0 <= i < |parts| => TextOf(parts[i], host)));
    if text == "" then None else Some(text)
  }

  function ResolveGetAtt(arg: Node, ctx: Context): Resolution {
    if arg.List? && |arg.items| >= 1 && arg.items[0].Leaf? && arg.items[0].scalar.Str?
       && arg.items[0].scalar.s in ctx.resourceIds
    then Reference(arg.items[0].scalar.s, AttributeName(arg.items[1..], ctx.host))
    else Unknown(GetAtt, [])
  }

  /** Texts gathered from resolved parts, with where each came from. */
  datatype Pieces = Pieces(texts: seq<string>, provenances: seq<Provenance>)

  function Before(text: string, provenance: Provenance, rest: Pieces): Pieces {
    Pieces([text] + rest.texts, [provenance] + rest.provenances)
  }

  /** The lookup keys, when every one of them resolves to a string. */
  function MapKeys(parts: seq<Node>, ctx: Context, depth: nat): (r: Option<Pieces>)
    requires depth <= MAX_DEPTH
    ensures r.Some? ==> |r.value.texts| == |parts|
    decreases Remaining(depth), 0, |parts|
  {
    if parts == [] then Some(Pieces([], []))
    else
      var first := Resolve(parts[0], ctx, depth + 1);
      if first.Known? && first.value.Leaf? && first.value.scalar.Str? then
        match MapKeys(parts[1..], ctx, depth)
        case None => None
        case Some(rest) => Some(Before(first.value.scalar.s, first.provenance, rest))
      else None
  }

  /** Follow keys down nested mappings. */
  function Descend(n: Node, keys: seq<string>): Option<Node> {
    if keys == [] then Some(n)
    else if !n.Dict? then None
    else
      match Lookup(n.entries, keys[0])
      case None => None
      case Some(child) => Descend(child, keys[1..])
  }

  function ResolveFindInMap(arg: Node, ctx: Context, depth: nat): Resolution
    requires depth <= MAX_DEPTH
    decreases Remaining(depth), 0, MAX_DEPTH
  {
    if !(arg.List? && |arg.items| >= 3) then Unknown(FindInMap, [])
    else
      match MapKeys(arg.items[..3], ctx, depth)
      case None => Unknown(FindInMap, [])
      case Some(keys) =>
        match Descend(ctx.mappings, keys.texts)
        case None => Unknown(FindInMap, [])
        case Some(value) => Known(value, Weakest(keys.provenances))
  }

  /** The branches of an undecided `If` that may serve as scenario values. */
  function Scenarios(branches: seq<Node>): seq<Scalar> {
    if branches == [] then []
    else (if IsScenario(branches[0]) then [branches[0].scalar] else []) + Scenarios(branches[1..])
  }

  predicate IsScenario(n: Node) {
    n.Leaf? && (n.scalar.Str? || n.scalar.Int? || n.scalar.Bool?)
  }

  function ResolveIf(arg: Node, ctx: Context, depth: nat): Resolution
    requires depth <= MAX_DEPTH
    decreases Remaining(depth), 0, 0
  {
    if !Takes(arg, 3) then Unknown(If, [])
    else
      match EvaluateCondition(arg.items[0], ctx, depth + 1, {})
      case Yes => Resolve(arg.items[1], ctx, depth + 1)
      case No => Resolve(arg.items[2], ctx, depth + 1)
      case Undecided => Unknown(If, Scenarios(arg.items[1..]))
  }

  function JoinPieces(parts: seq<Node>, ctx: Context, depth: nat): Option<Pieces>
    requires depth <= MAX_DEPTH
    decreases Remaining(depth), 0, |parts|
  {
    if parts == [] then Some(Pieces([], []))
    else
      var first := Resolve(parts[0], ctx, depth + 1);
      if first.Known? && first.value.Leaf? then
        match JoinPieces(parts[1..], ctx, depth)
        case None => None
        case Some(rest) => Some(Before(PieceText(first.value.scalar), first.provenance, rest))
      else None
  }

  /** The list to be joined: what the argument resolves to, or the argument as written. */
  function JoinList(parts: Node, ctx: Context, depth: nat): Node
    requires depth <= MAX_DEPTH
    decreases Remaining(depth), 0, 0
  {
    var r := Resolve(parts, ctx, depth + 1);
    if r.Known? && r.value.List? then r.value else parts
  }

  function ResolveJoin(arg: Node, ctx: Context, depth: nat): Resolution
    requires depth <= MAX_DEPTH
    decreases Remaining(depth), 1, 0
  {
    if !Takes(arg, 2) then Unknown(Join, [])
    else
      var delimiter, parts := arg.items[0], JoinList(arg.items[1], ctx, depth);
      if !(parts.List? && delimiter.Leaf? && delimiter.scalar.Str?) then Unknown(Join, [])
      else
        match JoinPieces(parts.items, ctx, depth)
        case None => Unknown(Join, [])
        case Some(pieces) =>
          Known(Leaf(Str(Intersperse(delimiter.scalar.s, pieces.texts))), Weakest(pieces.provenances))
  }

  /** `value[position]`: a negative position counts from the end, a string yields a character. */
  function Pick(value: Node, position: int): Option<Node> {
    match value
    case List(items) =>
      if 0 <= position < |items| then Some(items[position])
      else if -|items| <= position < 0 then Some(items[|items| + position])
      else None
    case Leaf(Str(s)) =>
      if 0 <= position < |s| then Some(Leaf(Str([s[position]])))
      else if -|s| <= position < 0 then Some(Leaf(Str([s[|s| + position]])))
      else None
    case _ => None
  }

  function ResolveSelect(arg: Node, ctx: Context, depth: nat): Resolution
    requires depth <= MAX_DEPTH
    decreases Remaining(depth), 0, 0
  {
    if !Takes(arg, 2) then Unknown(Select, [])
    else
      var index, candidates := Resolve(arg.items[0], ctx, depth + 1), Resolve(arg.items[1], ctx, depth + 1);
      if !(index.Known? && candidates.Known? && index.value.Leaf?) then Unknown(Select, [])
      else
        match IndexOf(index.value.scalar, ctx.host)
        case None => Unknown(Select, [])
        case Some(position) =>
          match Pick(candidates.value, position)
          case None => Unknown(Select, [])
          case Some(value) => Known(value, FromTemplate)
  }

  /** `s.split(delimiter)` for a delimiter that is not empty. */
  function SplitText(s: string, delimiter: string, from: nat): (r: seq<string>)
    requires delimiter != "" && from <= |s|
    ensures r != []
    decreases |s|, |s| - from
  {
    if from + |delimiter| > |s| then [s]
    else if s[from..from + |delimiter|] == delimiter then
      [s[..from]] + SplitText(s[from + |delimiter|..], delimiter, 0)
    else SplitText(s, delimiter, from + 1)
  }

  function TextList(texts: seq<string>): Node {
    List(seq(|texts|, i requires 0 <= i < |texts| => Leaf(Str(texts[i]))))
  }

  function ResolveSplit(arg: Node, ctx: Context, depth: nat): Resolution
    requires depth <= MAX_DEPTH
    decreases Remaining(depth), 0, 0
  {
    if !Takes(arg, 2) then Unknown(Split, [])
    else
      var delimiter, source := arg.items[0], Resolve(arg.items[1], ctx, depth + 1);
      if !(source.Known? && source.value.Leaf? && source.value.scalar.Str?) then Unknown(Split, [])
      else if !(delimiter.Leaf? && delimiter.scalar.Str? && delimiter.scalar.s != "") then Unknown(Split, [])
      else Known(TextList(SplitText(source.value.scalar.s, delimiter.scalar.s, 0)), FromTemplate)
  }

  /** An `Fn::Sub` argument: the template and its local variables. */
  function SubParts(arg: Node): Option<(string, seq<Entry>)> {
    if arg.List? then
      if |arg.items| == 2 && arg.items[0].Leaf? && arg.items[0].scalar.Str? then
        Some((arg.items[0].scalar.s, if arg.items[1].Dict? then arg.items[1].entries else []))
      else None
    else if arg.Leaf? && arg.scalar.Str? then Some((arg.scalar.s, []))
    else None
  }

  function ResolveSub(arg: Node, ctx: Context, depth: nat): Resolution
    requires depth <= MAX_DEPTH
    decreases Remaining(depth), 1, 0
  {
    match SubParts(arg)
    case None => Unknown(Sub, [])
    case Some((template, local)) =>
      match SubPieces(ParseSub(template), local, ctx, depth)
      case None => Unknown(Sub, [])
      case Some(text) => Known(Leaf(Str(text.text)), Weakest(text.provenances))
  }

  /** A substituted text, with where each substituted piece came from. */
  datatype SubResult = SubResult(text: string, provenances: seq<Provenance>)

  function SubPieces(st: SubTemplate, local: seq<Entry>, ctx: Context, depth: nat): Option<SubResult>
    requires depth <= MAX_DEPTH
    decreases Remaining(depth), 0, 1, st
  {
    match st
    case Last(text) => Some(SubResult(text, []))
    case Unclosed(text, tail) => Some(SubResult(text + tail, []))
    case Slot(text, name, rest) =>
      if IsEscape(name) then
        match SubPieces(rest, local, ctx, depth)
        case None => None
        case Some(after) => Some(SubResult(text + EscapeText(name) + after.text, after.provenances))
      else
        var piece := SlotValue(name, local, ctx, depth);
        if piece.Known? && piece.value.Leaf? then
          match SubPieces(rest, local, ctx, depth)
          case None => None
          case Some(after) =>
            Some(SubResult(text + PieceText(piece.value.scalar) + after.text, [piece.provenance] + after.provenances))
        else None
  }

  predicate IsEscape(name: string) {
    name != "" && name[0] == '!'
  }

  function EscapeText(name: string): string
    requires IsEscape(name)
  {
    "${" + name[1..] + "}"
  }

  /** The `GetAtt` argument a dotted slot name stands for. */
  function DottedTarget(name: string, dot: nat): Node
    requires dot < |name|
  {
    List([Leaf(Str(name[..dot])), Leaf(Str(name[dot + 1..]))])
  }

  /** The index of the first dot, or the length when there is none. */
  function FirstDot(name: string, from: nat): (r: nat)
    requires from <= |name|
    ensures from <= r <= |name|
    ensures r < |name| ==> name[r] == '.'
    ensures forall j :: from <= j < r ==> name[j] != '.'
    decreases |name| - from
  {
    if from == |name| || name[from] == '.' then from else FirstDot(name, from + 1)
  }

  /** What a slot's name stands for: a local variable, an attribute, or a `Ref`. */
  function SlotValue(name: string, local: seq<Entry>, ctx: Context, depth: nat): Resolution
    requires depth <= MAX_DEPTH
    decreases Remaining(depth), 0, 0
  {
    match Lookup(local, name)
    case Some(node) => Resolve(node, ctx, depth + 1)
    case None =>
      var dot := FirstDot(name, 0);
      if dot < |name| then ResolveGetAtt(DottedTarget(name, dot), ctx)
      else ResolveRef(Leaf(Str(name)), ctx)
  }

  // ----- conditions -----

  function EvaluateCondition(name: Node, ctx: Context, depth: nat, seen: set<string>): Verdict
    decreases Remaining(depth), 2
  {
    if !(name.Leaf? && name.scalar.Str?) || depth > MAX_DEPTH then Undecided
    else
      var s := name.scalar.s;
      if s in seen || !Defined(ctx, s) then Undecided
      else EvaluateExpression(ctx.conditions[s], ctx, depth + 1, seen + {s})
  }

  function KleeneNot(v: Verdict): Verdict {
    match v
    case Yes => No
    case No => Yes
    case Undecided => Undecided
  }

  function KleeneAnd(vs: seq<Verdict>): Verdict {
    if No in vs then No else if forall v | v in vs :: v == Yes then Yes else Undecided
  }

  function KleeneOr(vs: seq<Verdict>): Verdict {
    if Yes in vs then Yes else if forall v | v in vs :: v == No then No else Undecided
  }

  function CompareResolved(left: Resolution, right: Resolution, host: Host): Verdict {
    if !(left.Known? && right.Known?) then Undecided
    else if TextOf(left.value, host) == TextOf(right.value, host) then Yes
    else No
  }

  function EvaluateExpression(e: Node, ctx: Context, depth: nat, seen: set<string>): Verdict
    decreases Remaining(depth), 2
  {
    if depth > MAX_DEPTH || !IsCall(e) then Undecided
    else
      var arg := Arg(e);
      match Callee(e)
      case ConditionFn =>
        if arg.Leaf? && arg.scalar.Str? then EvaluateCondition(arg, ctx, depth + 1, seen) else Undecided
      case EqualsFn => EvaluateEquals(arg, ctx, depth + 1)
      case NotFn => EvaluateNot(arg, ctx, depth + 1, seen)
      case AndFn =>
        if !arg.List? then Undecided else KleeneAnd(EvaluateEach(arg.items, ctx, depth + 1, seen))
      case OrFn =>
        if !arg.List? then Undecided else KleeneOr(EvaluateEach(arg.items, ctx, depth + 1, seen))
      case _ => Undecided
  }

  /** Operands are compared as strings, once both are known. */
  function EvaluateEquals(arg: Node, ctx: Context, depth: nat): Verdict
    decreases Remaining(depth), 3
  {
    if !Takes(arg, 2) then Undecided
    else CompareResolved(Resolve(arg.items[0], ctx, depth), Resolve(arg.items[1], ctx, depth), ctx.host)
  }

  function EvaluateNot(arg: Node, ctx: Context, depth: nat, seen: set<string>): Verdict
    decreases Remaining(depth), 3
  {
    if !Takes(arg, 1) then Undecided
    else KleeneNot(EvaluateExpression(arg.items[0], ctx, depth, seen))
  }

  function EvaluateEach(items: seq<Node>, ctx: Context, depth: nat, seen: set<string>): (vs: seq<Verdict>)
    ensures |vs| == |items|
    ensures forall i :: 0 <= i < |items| ==> vs[i] == EvaluateExpression(items[i], ctx, depth, seen)
    decreases Remaining(depth), 3, |items|
  {
    if items == [] then []
    else [EvaluateExpression(items[0], ctx, depth, seen)] + EvaluateEach(items[1..], ctx, depth, seen)
  }

  // ----- the handlers the program writes as loops -----

  method FindInMapByLoop(arg: Node, ctx: Context, depth: nat) returns (r: Resolution)
    requires depth <= MAX_DEPTH
    ensures r == ResolveFindInMap(arg, ctx, depth)
  {
    if !(arg.List? && |arg.items| >= 3) {
      return Unknown(FindInMap, []);
    }
    var parts := arg.items[..3];
    var keys: seq<string>, provenances: seq<Provenance> := [], [];
    PrependNothing(MapKeys(parts, ctx, depth));
    assert parts[0..] == parts;
    for i := 0 to |parts|
      invariant |keys| == i
      invariant MapKeys(parts, ctx, depth) == Prepend(keys, provenances, MapKeys(parts[i..], ctx, depth))
    {
      var resolved := Resolve(parts[i], ctx, depth + 1);
      assert parts[i..][1..] == parts[i + 1..];
      if !(resolved.Known? && resolved.value.Leaf? && resolved.value.scalar.Str?) {
        return Unknown(FindInMap, []);
      }
      keys := keys + [resolved.value.scalar.s];
      provenances := provenances + [resolved.provenance];
      PrependStep(keys, provenances, MapKeys(parts[i + 1..], ctx, depth));
    }
    assert parts[|parts|..] == [];
    assert keys + [] == keys && provenances + [] == provenances;
    assert MapKeys(parts, ctx, depth) == Some(Pieces(keys, provenances));
    assert keys[0..] == keys;
    var node := ctx.mappings;
    for k := 0 to |keys|
      invariant Descend(ctx.mappings, keys) == Descend(node, keys[k..])
    {
      if !node.Dict? {
        return Unknown(FindInMap, []);
      }
      var child := Lookup(node.entries, keys[k]);
      assert keys[k..][1..] == keys[k + 1..];
      if child.None? {
        return Unknown(FindInMap, []);
      }
      node := child.value;
    }
    r := Known(node, Weakest(provenances));
  }

  /** Pieces gathered so far, put in front of the pieces still to come. */
  ghost function Prepend(texts: seq<string>, provenances: seq<Provenance>, rest: Option<Pieces>): Option<Pieces> {
    match rest
    case None => None
    case Some(p) => Some(Pieces(texts + p.texts, provenances + p.provenances))
  }

  lemma PrependNothing(rest: Option<Pieces>)
    ensures Prepend([], [], rest) == rest
  {
    if rest.Some? {
      assert [] + rest.value.texts == rest.value.texts && [] + rest.value.provenances == rest.value.provenances;
    }
  }

  lemma PrependStep(texts: seq<string>, provenances: seq<Provenance>, rest: Option<Pieces>)
    requires texts != [] && provenances != []
    ensures rest.Some? ==>
              Prepend(texts, provenances, rest)
              == Prepend(texts[..|texts| - 1], provenances[..|provenances| - 1],
                         Some(Before(texts[|texts| - 1], provenances[|provenances| - 1], rest.value)))
  {
    if rest.Some? {
      var t, p := texts[|texts| - 1], provenances[|provenances| - 1];
      assert texts[..|texts| - 1] + ([t] + rest.value.texts) == texts + rest.value.texts;
      assert provenances[..|provenances| - 1] + ([p] + rest.value.provenances) == provenances + rest.value.provenances;
    }
  }

  method JoinByLoop(arg: Node, ctx: Context, depth: nat) returns (r: Resolution)
    requires depth <= MAX_DEPTH
    ensures r == ResolveJoin(arg, ctx, depth)
  {
    if !Takes(arg, 2) {
      return Unknown(Join, []);
    }
    var delimiter, parts := arg.items[0], arg.items[1];
    var resolvedParts := Resolve(parts, ctx, depth + 1);
    if resolvedParts.Known? && resolvedParts.value.List? {
      parts := resolvedParts.value;
    }
    if !(parts.List? && delimiter.Leaf? && delimiter.scalar.Str?) {
      return Unknown(Join, []);
    }
    var items := parts.items;
    var pieces: seq<string>, provenances: seq<Provenance> := [], [];
    PrependNothing(JoinPieces(items, ctx, depth));
    assert items[0..] == items;
    for i := 0 to |items|
      invariant JoinPieces(items, ctx, depth) == Prepend(pieces, provenances, JoinPieces(items[i..], ctx, depth))
    {
      var resolved := Resolve(items[i], ctx, depth + 1);
      assert items[i..][1..] == items[i + 1..];
      if !(resolved.Known? && resolved.value.Leaf?) {
        return Unknown(Join, []);
      }
      pieces := pieces + [PieceText(resolved.value.scalar)];
      provenances := provenances + [resolved.provenance];
      PrependStep(pieces, provenances, JoinPieces(items[i + 1..], ctx, depth));
    }
    assert items[|items|..] == [];
    assert pieces + [] == pieces && provenances + [] == provenances;
    assert JoinPieces(items, ctx, depth) == Some(Pieces(pieces, provenances));
    r := Known(Leaf(Str(Intersperse(delimiter.scalar.s, pieces))), Weakest(provenances));
  }

  /** What remains to be substituted from `index` on. */
  ghost function Rest(template: string, index: nat, local: seq<Entry>, ctx: Context, depth: nat): Option<SubResult>
    requires index <= |template| && depth <= MAX_DEPTH
  {
    SubPieces(ParseFrom(template, index), local, ctx, depth)
  }

  ghost function PrependText(output: string, provenances: seq<Provenance>, rest: Option<SubResult>): Option<SubResult> {
    match rest
    case None => None
    case Some(p) => Some(SubResult(output + p.text, provenances + p.provenances))
  }

  /** The scanning loop of `Fn::Sub` computes what the segment grammar says. */
  method SubByScanning(arg: Node, ctx: Context, depth: nat) returns (r: Resolution)
    requires depth <= MAX_DEPTH
    ensures r == ResolveSub(arg, ctx, depth)
  {
    var parts := SubParts(arg);
    if parts.None? {
      return Unknown(Sub, []);
    }
    var (template, local) := parts.value;
    var text := ScanTemplate(template, local, ctx, depth);
    if text.None? {
      return Unknown(Sub, []);
    }
    r := Known(Leaf(Str(text.value.text)), Weakest(text.value.provenances));
  }

  method ScanTemplate(template: string, local: seq<Entry>, ctx: Context, depth: nat) returns (r: Option<SubResult>)
    requires depth <= MAX_DEPTH
    ensures r == Rest(template, 0, local, ctx, depth)
  {
    hide SubPieces, ParseFrom, SlotValue, PieceText, EscapeText, FindOpen, FindClose, Rest;
    var output: string, provenances: seq<Provenance> := "", [];
    var index := 0;
    ghost var whole := Rest(template, 0, local, ctx, depth);
    PrependNoText(whole);
    while index < |template|
      invariant index <= |template|
      invariant whole == PrependText(output, provenances, Rest(template, index, local, ctx, depth))
    {
      ghost var before, sources := output, provenances;
      var start := FindOpen(template, index);
      if start.None? {
        output := output + template[index..];
        RestWithoutSlot(template, index, local, ctx, depth);
        LastStep(before, template[index..], sources);
        break;
      }
      ghost var text := template[index..start.value];
      output := output + template[index..start.value];
      var end := FindClose(template, start.value);
      if end.None? {
        output := output + template[start.value..];
        RestWithoutSlot(template, index, local, ctx, depth);
        LastStep(before, template[index..], sources);
        assert before + template[index..] == output;
        break;
      }
      SlotAhead(template, index, start.value, end.value);
      var name := template[start.value + 2..end.value];
      ghost var rest := Rest(template, end.value + 1, local, ctx, depth);
      RestAtSlot(template, index, start.value, end.value, local, ctx, depth);
      index := end.value + 1;
      if IsEscape(name) {
        output := output + EscapeText(name);
        SlotStep(before, text, EscapeText(name), sources, [], rest);
        assert sources + [] == sources;
        continue;
      }
      var piece := SlotValue(name, local, ctx, depth);
      if piece.Known? && piece.value.Leaf? {
        output := output + PieceText(piece.value.scalar);
        provenances := provenances + [piece.provenance];
        SlotStep(before, text, PieceText(piece.value.scalar), sources, [piece.provenance], rest);
        continue;
      }
      return None;
    }
    if index == |template| {
      RestWithoutSlot(template, index, local, ctx, depth);
      LastStep(output, template[index..], provenances);
      assert output + template[index..] == output;
    }
    assert whole == Some(SubResult(output, provenances));
    r := Some(SubResult(output, provenances));
  }

  lemma RestWithoutSlot(t: string, index: nat, local: seq<Entry>, ctx: Context, depth: nat)
    requires depth <= MAX_DEPTH && index <= |t|
    requires FindOpen(t, index).None? || FindClose(t, FindOpen(t, index).value).None?
    ensures Rest(t, index, local, ctx, depth) == Some(SubResult(t[index..], []))
  {
    if FindOpen(t, index).Some? {
      var start := FindOpen(t, index).value;
      assert t[index..start] + t[start..] == t[index..];
    }
  }

  lemma RestAtSlot(t: string, index: nat, start: nat, end: nat, local: seq<Entry>, ctx: Context, depth: nat)
    requires depth <= MAX_DEPTH && index <= |t| && start + 2 <= end < |t| && index <= start
    requires ParseFrom(t, index) == Slot(t[index..start], t[start + 2..end], ParseFrom(t, end + 1))
    ensures Rest(t, index, local, ctx, depth)
            == SlotResult(t[index..start], t[start + 2..end], local, ctx, depth, Rest(t, end + 1, local, ctx, depth))
  {
    var rest := Rest(t, end + 1, local, ctx, depth);
    assert rest.Some? ==> [] + rest.value.provenances == rest.value.provenances;
  }

  ghost function SlotResult(text: string, name: string, local: seq<Entry>, ctx: Context, depth: nat, rest: Option<SubResult>): Option<SubResult>
    requires depth <= MAX_DEPTH
  {
    if IsEscape(name) then PrependText(text + EscapeText(name), [], rest)
    else
      var piece := SlotValue(name, local, ctx, depth);
      if piece.Known? && piece.value.Leaf? then
        PrependText(text + PieceText(piece.value.scalar), [piece.provenance], rest)
      else None
  }

  lemma PrependNoText(rest: Option<SubResult>)
    ensures PrependText("", [], rest) == rest
  {
    if rest.Some? {
      assert "" + rest.value.text == rest.value.text && [] + rest.value.provenances == rest.value.provenances;
    }
  }

  lemma LastStep(output: string, added: string, provenances: seq<Provenance>)
    ensures PrependText(output, provenances, Some(SubResult(added, []))) == Some(SubResult(output + added, provenances))
  {
    assert provenances + [] == provenances;
  }

  lemma SlotStep(output: string, text: string, added: string, provenances: seq<Provenance>, source: seq<Provenance>, rest: Option<SubResult>)
    ensures PrependText(output, provenances, PrependText(text + added, source, rest))
            == PrependText(output + text + added, provenances + source, rest)
  {
    if rest.Some? {
      assert output + ((text + added) + rest.value.text) == (output + text + added) + rest.value.text;
      assert provenances + (source + rest.value.provenances) == provenances + source + rest.value.provenances;
    }
  }
}
