/** Where a chain of decided `If`, `Select` and `FindInMap` calls ends, read off its arguments. */
module Chains {
  import opened Templates
  import opened SubTemplates
  import opened Intrinsics

  /** A term taken as it stands in the template, a call that has to be computed, or no room left. */
  datatype Ending = Taken(node: Node) | Computed(call: Node) | Nowhere

  /** The position a selection names, once its index is a known scalar. */
  function PositionOf(index: Node, ctx: Context, depth: nat): Option<int> {
    var r := Resolve(index, ctx, depth);
    if r.Known? && r.value.Leaf? then IndexOf(r.value.scalar, ctx.host) else None
  }

  /** The mapping entry a lookup names, once its keys are known. */
  function EntryOf(arg: Node, ctx: Context, depth: nat): Option<Node>
    requires depth <= MAX_DEPTH
  {
    if !(arg.List? && |arg.items| >= 3) then None
    else
      match MapKeys(arg.items[..3], ctx, depth)
      case None => None
      case Some(keys) => Descend(ctx.mappings, keys.texts)
  }

  function Ends(n: Node, ctx: Context, depth: nat): Ending
    decreases Remaining(depth)
  {
    if depth > MAX_DEPTH then Nowhere
    else if !IsCall(n) then Taken(n)
    else
      var arg := Arg(n);
      match Callee(n)
      case IfFn =>
        if !Takes(arg, 3) then Computed(n)
        else
          (match EvaluateCondition(arg.items[0], ctx, depth + 1, {})
           case Yes => Ends(arg.items[1], ctx, depth + 1)
           case No => Ends(arg.items[2], ctx, depth + 1)
           case Undecided => Computed(n))
      case SelectFn =>
        if !Takes(arg, 2) then Computed(n)
        else
          var list, position := Ends(arg.items[1], ctx, depth + 1), PositionOf(arg.items[0], ctx, depth + 1);
          if list.Taken? && position.Some? && Pick(list.node, position.value).Some? then Taken(Pick(list.node, position.value).value)
          else Computed(n)
      case FindInMapFn =>
        var entry := EntryOf(arg, ctx, depth);
        if entry.Some? then Taken(entry.value) else Computed(n)
      case _ => Computed(n)
  }

  predicate IsNoValue(n: Node) {
    IsCall(n) && Callee(n).RefFn? && Arg(n) == Leaf(Str("AWS::NoValue"))
  }

  /** The chain ends in a call that was picked and is not evaluated any further. */
  predicate PicksCall(n: Node, ctx: Context, depth: nat) {
    var e := Ends(n, ctx, depth);
    e.Taken? && IsCall(e.node)
  }

  /** The chain ends in a picked call, or in the pseudo parameter that removes a property. */
  predicate Vanishes(n: Node, ctx: Context) {
    PicksCall(n, ctx, 0) || (Ends(n, ctx, 0).Computed? && IsNoValue(Ends(n, ctx, 0).call))
  }

  // ----- the ending decides what resolution yields -----

  /** What computing a call can yield: a scalar, or a list of scalars that is not empty. */
  predicate Settled(v: Node) {
    v.Leaf? || (v.List? && v.items != [] && forall i :: 0 <= i < |v.items| ==> v.items[i].Leaf?)
  }

  ghost predicate EndingDecides(r: Resolution, e: Ending) {
    match e
    case Taken(v) => r.Known? && r.value == v
    case Computed(call) => IsCall(call) && (r.Known? ==> Settled(r.value)) && (r.Omitted? <==> IsNoValue(call))
    case Nowhere => r.Unknown?
  }

  lemma NoValueName(name: string)
    ensures PseudoOf(name) == Some(NoValue) <==> name == "AWS::NoValue"
  {
    assert "AWS::NoValue"[5] == 'N' && "AWS::Region"[5] == 'R' && "AWS::AccountId"[5] == 'A' && "AWS::Partition"[5] == 'P';
    assert "AWS::StackName"[5] == 'S' && "AWS::StackId"[5] == 'S' && "AWS::URLSuffix"[5] == 'U';
  }

  lemma {:induction false} EndsDecide(n: Node, ctx: Context, depth: nat)
    ensures EndingDecides(Resolve(n, ctx, depth), Ends(n, ctx, depth))
    decreases Remaining(depth)
  {
    hide ResolveCall, Settled, IsNoValue, Pick, PositionOf, EntryOf, EvaluateCondition, FnOf;
    if depth <= MAX_DEPTH && IsCall(n) {
      var arg := Arg(n);
      assert Resolve(n, ctx, depth) == ResolveCall(n, ctx, depth);
      if Callee(n).IfFn? {
        IfUnfolds(n, ctx, depth);
        if Takes(arg, 3) {
          EndsDecide(arg.items[1], ctx, depth + 1);
          EndsDecide(arg.items[2], ctx, depth + 1);
        }
      } else if Callee(n).SelectFn? {
        if Takes(arg, 2) { EndsDecide(arg.items[1], ctx, depth + 1); }
        SelectEnds(n, ctx, depth);
      } else if Callee(n).FindInMapFn? {
        FindInMapEnds(n, ctx, depth);
      } else {
        OthersAreComputed(n, ctx, depth);
      }
    }
  }

  lemma IfUnfolds(n: Node, ctx: Context, depth: nat)
    requires depth <= MAX_DEPTH && IsCall(n) && Callee(n).IfFn?
    ensures !IsNoValue(n)
    ensures !Takes(Arg(n), 3) ==> ResolveCall(n, ctx, depth).Unknown?
    ensures Takes(Arg(n), 3) ==>
              match EvaluateCondition(Arg(n).items[0], ctx, depth + 1, {})
              case Yes => ResolveCall(n, ctx, depth) == Resolve(Arg(n).items[1], ctx, depth + 1)
              case No => ResolveCall(n, ctx, depth) == Resolve(Arg(n).items[2], ctx, depth + 1)
              case Undecided => ResolveCall(n, ctx, depth).Unknown?
  {
    hide EvaluateCondition, Resolve;
    assert ResolveCall(n, ctx, depth) == ResolveIf(Arg(n), ctx, depth);
  }

  lemma SelectEnds(n: Node, ctx: Context, depth: nat)
    requires depth <= MAX_DEPTH && IsCall(n) && Callee(n).SelectFn?
    requires Takes(Arg(n), 2) ==> EndingDecides(Resolve(Arg(n).items[1], ctx, depth + 1), Ends(Arg(n).items[1], ctx, depth + 1))
    ensures EndingDecides(ResolveCall(n, ctx, depth), Ends(n, ctx, depth))
  {
    hide Resolve, Settled, IndexOf, Pick;
    assert ResolveCall(n, ctx, depth) == ResolveSelect(Arg(n), ctx, depth);
    var arg := Arg(n);
    if Takes(arg, 2) {
      UnfoldEnds(n, ctx, depth);
      var list, position := Resolve(arg.items[1], ctx, depth + 1), PositionOf(arg.items[0], ctx, depth + 1);
      if list.Known? && position.Some? { SettledPick(list.value, position.value); }
    }
  }

  lemma UnfoldEnds(n: Node, ctx: Context, depth: nat)
    requires depth <= MAX_DEPTH && IsCall(n) && Callee(n).SelectFn? && Takes(Arg(n), 2)
    ensures var list, position := Ends(Arg(n).items[1], ctx, depth + 1), PositionOf(Arg(n).items[0], ctx, depth + 1);
            Ends(n, ctx, depth)
            == if list.Taken? && position.Some? && Pick(list.node, position.value).Some? then Taken(Pick(list.node, position.value).value)
               else Computed(n)
  {
    hide PositionOf, Pick;
  }

  lemma SettledPick(v: Node, position: int)
    ensures Settled(v) && Pick(v, position).Some? ==> Settled(Pick(v, position).value)
  {
  }

  lemma FindInMapEnds(n: Node, ctx: Context, depth: nat)
    requires depth <= MAX_DEPTH && IsCall(n) && Callee(n).FindInMapFn?
    ensures EndingDecides(ResolveCall(n, ctx, depth), Ends(n, ctx, depth))
  {
    hide Resolve, MapKeys, Descend, Settled;
    assert ResolveCall(n, ctx, depth) == ResolveFindInMap(Arg(n), ctx, depth);
  }

  lemma OthersAreComputed(n: Node, ctx: Context, depth: nat)
    requires depth <= MAX_DEPTH && IsCall(n) && !Callee(n).IfFn? && !Callee(n).SelectFn? && !Callee(n).FindInMapFn?
    ensures Ends(n, ctx, depth) == Computed(n)
    ensures EndingDecides(ResolveCall(n, ctx, depth), Computed(n))
  {
    if Callee(n).RefFn? { RefIsComputed(n, ctx, depth); }
    else if Callee(n).SubFn? || Callee(n).JoinFn? || Callee(n).SplitFn? || Callee(n).GetAttFn? { TextIsComputed(n, ctx, depth); }
    else { VerdictIsComputed(n, ctx, depth); }
  }

  lemma RefIsComputed(n: Node, ctx: Context, depth: nat)
    requires depth <= MAX_DEPTH && IsCall(n) && Callee(n).RefFn?
    ensures Ends(n, ctx, depth) == Computed(n) && EndingDecides(ResolveCall(n, ctx, depth), Computed(n))
  {
    hide PseudoOf;
    if Arg(n).Leaf? && Arg(n).scalar.Str? { NoValueName(Arg(n).scalar.s); }
  }

  lemma TextIsComputed(n: Node, ctx: Context, depth: nat)
    requires depth <= MAX_DEPTH && IsCall(n)
    requires Callee(n).SubFn? || Callee(n).JoinFn? || Callee(n).SplitFn? || Callee(n).GetAttFn?
    ensures Ends(n, ctx, depth) == Computed(n) && EndingDecides(ResolveCall(n, ctx, depth), Computed(n))
  {
    hide Resolve, SubPieces, ParseSub, JoinPieces, JoinList, SplitText, AttributeName, SubParts;
  }

  lemma VerdictIsComputed(n: Node, ctx: Context, depth: nat)
    requires depth <= MAX_DEPTH && IsCall(n) && !Callee(n).IfFn? && !Callee(n).SelectFn? && !Callee(n).FindInMapFn? && !Callee(n).RefFn?
    requires !(Callee(n).SubFn? || Callee(n).JoinFn? || Callee(n).SplitFn? || Callee(n).GetAttFn?)
    ensures Ends(n, ctx, depth) == Computed(n) && EndingDecides(ResolveCall(n, ctx, depth), Computed(n))
  {
    hide EvaluateCondition, EvaluateExpression;
  }

  // ----- main results -----

  /** Resolution yields a raw call exactly when the chain ends in a picked one, and leaves a
      property out exactly when the chain ends in `AWS::NoValue`. */
  lemma ChainsDecide(n: Node, ctx: Context, depth: nat)
    ensures var r := Resolve(n, ctx, depth);
            && ((r.Known? && IsCall(r.value)) <==> PicksCall(n, ctx, depth))
            && (depth == 0 ==> ((r.Omitted? || (r.Known? && IsCall(r.value))) <==> Vanishes(n, ctx)))
  {
    hide Resolve, Ends, IsNoValue;
    EndsDecide(n, ctx, depth);
  }
}
