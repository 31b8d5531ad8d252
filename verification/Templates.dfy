/** Template terms, the resolution context and the four outcomes of resolution. */
module Templates {

  datatype Option<+T> = None | Some(value: T)

  /** A parsed YAML leaf.  A float is known by its truncation and by its rendering,
      the only two things the program ever asks of it. */
  datatype Scalar = Null | Bool(b: bool) | Int(n: int) | Float(whole: int, text: string) | Str(s: string)

  datatype Entry = Entry(key: string, value: Node)

  /** A template node.  A mapping keeps its insertion order. */
  datatype Node = Leaf(scalar: Scalar) | List(items: seq<Node>) | Dict(entries: seq<Entry>)

  /** The function names that make a one-entry mapping an intrinsic call. */
  datatype Fn =
    | RefFn | ConditionFn | AndFn | Base64Fn | CidrFn | EqualsFn | FindInMapFn | ForEachFn
    | GetAZsFn | GetAttFn | IfFn | ImportValueFn | JoinFn | LengthFn | NotFn | OrFn | SelectFn
    | SplitFn | SubFn | ToJsonStringFn | TransformFn

  function FnOf(key: string): Option<Fn> {
    if key == "Ref" then Some(RefFn)
    else if key == "Condition" then Some(ConditionFn)
    else if key == "Fn::And" then Some(AndFn)
    else if key == "Fn::Base64" then Some(Base64Fn)
    else if key == "Fn::Cidr" then Some(CidrFn)
    else if key == "Fn::Equals" then Some(EqualsFn)
    else if key == "Fn::FindInMap" then Some(FindInMapFn)
    else if key == "Fn::ForEach" then Some(ForEachFn)
    else if key == "Fn::GetAZs" then Some(GetAZsFn)
    else if key == "Fn::GetAtt" then Some(GetAttFn)
    else if key == "Fn::If" then Some(IfFn)
    else if key == "Fn::ImportValue" then Some(ImportValueFn)
    else if key == "Fn::Join" then Some(JoinFn)
    else if key == "Fn::Length" then Some(LengthFn)
    else if key == "Fn::Not" then Some(NotFn)
    else if key == "Fn::Or" then Some(OrFn)
    else if key == "Fn::Select" then Some(SelectFn)
    else if key == "Fn::Split" then Some(SplitFn)
    else if key == "Fn::Sub" then Some(SubFn)
    else if key == "Fn::ToJsonString" then Some(ToJsonStringFn)
    else if key == "Fn::Transform" then Some(TransformFn)
    else None
  }

  datatype Pseudo =
    | Region | AccountId | Partition | StackName | StackId | UrlSuffix | NoValue | NotificationArns

  function PseudoOf(name: string): Option<Pseudo> {
    if name == "AWS::Region" then Some(Region)
    else if name == "AWS::AccountId" then Some(AccountId)
    else if name == "AWS::Partition" then Some(Partition)
    else if name == "AWS::StackName" then Some(StackName)
    else if name == "AWS::StackId" then Some(StackId)
    else if name == "AWS::URLSuffix" then Some(UrlSuffix)
    else if name == "AWS::NoValue" then Some(NoValue)
    else if name == "AWS::NotificationARNs" then Some(NotificationArns)
    else None
  }

  /** A mapping with exactly one key drawn from the known set. */
  predicate IsCall(n: Node) {
    n.Dict? && |n.entries| == 1 && FnOf(n.entries[0].key).Some?
  }

  function Callee(n: Node): Fn
    requires IsCall(n)
  {
    FnOf(n.entries[0].key).value
  }

  function Arg(n: Node): Node
    requires IsCall(n)
  {
    n.entries[0].value
  }

  /** A call's argument, when it is a list of exactly `count` items. */
  predicate Takes(arg: Node, count: nat) {
    arg.List? && |arg.items| == count
  }

  /** Mapping lookup; the result is a proper part of whatever holds the entries. */
  function Lookup(entries: seq<Entry>, key: string): (r: Option<Node>)
    ensures r.Some? ==> exists i :: 0 <= i < |entries| && entries[i].key == key && r.value == entries[i].value
  {
    if entries == [] then None
    else if entries[0].key == key then Some(entries[0].value)
    else
      var rest := Lookup(entries[1..], key);
      assert rest.Some? ==> exists i :: 0 <= i < |entries[1..]| && entries[1..][i].key == key && rest.value == entries[1..][i].value;
      assert forall i :: 0 <= i < |entries[1..]| ==> entries[1..][i] == entries[i + 1];
      rest
  }

  /** Where a value came from, strongest evidence first. */
  datatype Provenance =
    | FromTemplate | CliParameter | TemplateDefault | ConfigResourceOverride | ConfigEnvironment
    | Historical | BuiltinDefault | FromNowhere

  function Precedence(p: Provenance): nat {
    match p
    case FromTemplate => 0
    case CliParameter => 1
    case TemplateDefault => 2
    case ConfigResourceOverride => 3
    case ConfigEnvironment => 4
    case Historical => 5
    case BuiltinDefault => 6
    case FromNowhere => 7
  }

  /** The least specific provenance of several, `FromTemplate` when there are none. */
  function Weakest(ps: seq<Provenance>): (r: Provenance)
    ensures forall p :: p in ps ==> Precedence(p) <= Precedence(r)
    ensures if ps == [] then r == FromTemplate else r in ps
  {
    if ps == [] then FromTemplate
    else
      var rest := Weakest(ps[1..]);
      if |ps| == 1 || Precedence(rest) < Precedence(ps[0]) then ps[0] else rest
  }

  datatype Kind =
    | RefParameter | RefPseudoParameter | GetAtt | ImportValue | Sub | Join | Select | Split
    | FindInMap | If | GetAzs | Base64 | Cidr | Transform | MissingParameter | Unsupported

  /** The outcome of resolution.  Reasons and rendered expressions are not modelled. */
  datatype Resolution =
    | Known(value: Node, provenance: Provenance)
    | Reference(logicalId: string, attribute: Option<string>)
    | Unknown(kind: Kind, scenarios: seq<Scalar>)
    | Omitted

  /** Kleene's three truth values. */
  datatype Verdict = Yes | No | Undecided

  /** Two functions of the host language: `str` on a list or mapping, `int` on a string. */
  datatype Host = Host(textOf: Node -> string, parseInt: string -> Option<int>)

  datatype Context = Context(
    region: string,
    stackName: string,
    partition: string,
    accountId: string,
    urlSuffix: string,
    supplied: map<string, string>,
    defaults: map<string, string>,
    declared: set<string>,
    mappings: Node,
    conditions: map<string, Node>,
    resourceIds: set<string>,
    host: Host)

  /** A condition counts as defined unless its expression is missing or null. */
  predicate Defined(ctx: Context, name: string) {
    name in ctx.conditions && ctx.conditions[name] != Leaf(Null)
  }

  /** The characters that `str.strip` removes. */
  predicate IsSpace(c: char) {
    || '\t' <= c <= '\r' || '\U{1C}' <= c <= ' ' || c == '\U{85}' || c == '\U{A0}' || c == '\U{1680}'
    || '\U{2000}' <= c <= '\U{200A}' || c == '\U{2028}' || c == '\U{2029}' || c == '\U{202F}' || c == '\U{205F}' || c == '\U{3000}'
  }

  /** `not s.strip()`. */
  predicate IsBlank(s: string) {
    forall i :: 0 <= i < |s| ==> IsSpace(s[i])
  }

  function DigitText(d: nat): string
    requires d < 10
  {
    ["0123456789"[d]]
  }

  function NatText(n: nat): string {
    if n < 10 then DigitText(n) else NatText(n / 10) + DigitText(n % 10)
  }

  function IntText(n: int): string {
    if n < 0 then "-" + NatText(-n) else NatText(n)
  }

  /** `str(value)` of a scalar. */
  function ScalarText(s: Scalar): string {
    match s
    case Null => "None"
    case Bool(b) => if b then "True" else "False"
    case Int(n) => IntText(n)
    case Float(_, text) => text
    case Str(s) => s
  }

  /** How a scalar reads inside a joined or substituted string: null vanishes. */
  function PieceText(s: Scalar): string {
    if s.Null? then "" else ScalarText(s)
  }

  function TextOf(n: Node, host: Host): string {
    match n
    case Leaf(s) => ScalarText(s)
    case List(_) => host.textOf(n)
    case Dict(_) => host.textOf(n)
  }

  /** `int(value)`, or None where it raises. */
  function IndexOf(s: Scalar, host: Host): Option<int> {
    match s
    case Null => None
    case Bool(b) => Some(if b then 1 else 0)
    case Int(n) => Some(n)
    case Float(whole, _) => Some(whole)
    case Str(s) => host.parseInt(s)
  }
}
