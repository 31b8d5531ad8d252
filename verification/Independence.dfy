/** What a call means depends on what the environment says of the calls inside it, and of no
    others. */
module Independence {
  import opened Templates
  import opened SubTemplates
  import opened Intrinsics
  import opened Chains
  import opened Deployment

  /** The term is the other, or a part of it. */
  predicate Occurs(part: Node, n: Node)
    decreases n
  {
    || n == part
    || match n
       case Leaf(_) => false
       case List(items) => exists i :: 0 <= i < |items| && Occurs(part, items[i])
       case Dict(entries) => exists i :: 0 <= i < |entries| && Occurs(part, entries[i].value)
  }

  lemma {:induction false} PartIsNoLarger(part: Node, n: Node)
    requires Occurs(part, n)
    ensures part == n || part < n
    decreases n
  {
    if part != n {
      match n
      case List(items) =>
        var i :| 0 <= i < |items| && Occurs(part, items[i]);
        PartIsNoLarger(part, items[i]);
      case Dict(entries) =>
        var i :| 0 <= i < |entries| && Occurs(part, entries[i].value);
        PartIsNoLarger(part, entries[i].value);
        assert entries[i].value < n;
    }
  }

  lemma {:induction false} PartOfPart(a: Node, b: Node, c: Node)
    requires Occurs(a, b) && Occurs(b, c)
    ensures Occurs(a, c)
    decreases c
  {
    if b != c {
      match c
      case List(items) =>
        var i :| 0 <= i < |items| && Occurs(b, items[i]);
        PartOfPart(a, b, items[i]);
      case Dict(entries) =>
        var i :| 0 <= i < |entries| && Occurs(b, entries[i].value);
        PartOfPart(a, b, entries[i].value);
    }
  }

  lemma {:induction false} PartIsLawful(part: Node, n: Node, ctx: Context, trust: Trust)
    requires Occurs(part, n) && Lawful(n, ctx, trust)
    ensures Lawful(part, ctx, trust)
    decreases n
  {
    hide LawfulCall;
    if part != n {
      match n
      case List(items) =>
        var i :| 0 <= i < |items| && Occurs(part, items[i]);
        PartIsLawful(part, items[i], ctx, trust);
      case Dict(entries) =>
        var i :| 0 <= i < |entries| && Occurs(part, entries[i].value);
        PartIsLawful(part, entries[i].value, ctx, trust);
    }
  }

  lemma {:induction false} LiteralHasNoCall(call: Node, n: Node)
    requires Literal(n) && IsCall(call)
    ensures !Occurs(call, n)
    decreases n
  {
    match n
    case Leaf(_) =>
    case List(items) =>
      forall i | 0 <= i < |items| ensures !Occurs(call, items[i]) { LiteralHasNoCall(call, items[i]); }
    case Dict(entries) =>
      forall i | 0 <= i < |entries| ensures !Occurs(call, entries[i].value) { LiteralHasNoCall(call, entries[i].value); }
  }

  lemma PartsDoNotOccur(part: Node, n: Node)
    requires !Occurs(part, n)
    ensures n != part
    ensures n.List? ==> forall i :: 0 <= i < |n.items| ==> !Occurs(part, n.items[i])
    ensures n.Dict? ==> forall i :: 0 <= i < |n.entries| ==> !Occurs(part, n.entries[i].value)
  {
  }

  // ----- environments that differ at one call -----

  /** The two agree on everything but one call. */
  ghost predicate SameElsewhere(env: Environment, env': Environment, call: Node) {
    && env' == env.(other := env'.other, otherTruth := env'.otherTruth)
    && forall n :: n != call ==> env'.other(n) == env.other(n) && env'.otherTruth(n) == env.otherTruth(n)
  }

  lemma {:induction false} MeansElsewhere(n: Node, ctx: Context, env: Environment, env': Environment, call: Node)
    requires SameElsewhere(env, env', call) && IsCall(call) && !Occurs(call, n)
    ensures Means(n, ctx, env') == Means(n, ctx, env)
    decreases n, 2
  {
    hide CallMeans, FnOf, SameElsewhere, Occurs;
    PartsDoNotOccur(call, n);
    match n
    case Leaf(_) =>
    case List(items) =>
      forall i | 0 <= i < |items|
        ensures Means(items[i], ctx, env') == Means(items[i], ctx, env)
      {
        MeansElsewhere(items[i], ctx, env, env', call);
      }
      assert MeansEach(items, ctx, env') == MeansEach(items, ctx, env);
    case Dict(entries) =>
      if IsCall(n) {
        CallElsewhere(n, ctx, env, env', call);
      } else {
        forall i | 0 <= i < |entries|
          ensures Means(entries[i].value, ctx, env') == Means(entries[i].value, ctx, env)
        {
          MeansElsewhere(entries[i].value, ctx, env, env', call);
        }
        assert Means(n, ctx, env').entries == Means(n, ctx, env).entries;
      }
  }

  lemma {:induction false} CallElsewhere(n: Node, ctx: Context, env: Environment, env': Environment, call: Node)
    requires SameElsewhere(env, env', call) && IsCall(call) && !Occurs(call, n) && IsCall(n)
    ensures CallMeans(n, ctx, env') == CallMeans(n, ctx, env)
    decreases n, 1
  {
    hide Means, Holds, FnOf, Occurs, FindInMapMeans, JoinMeans, SelectMeans, SplitMeans, SubMeans, RefMeans, GetAttMeans, SubParts, ParseSub;
    var arg := Arg(n);
    PartsDoNotOccur(call, n);
    PartsDoNotOccur(call, arg);
    if arg.List? {
      forall i | 0 <= i < |arg.items|
        ensures arg.items[i] != call && Means(arg.items[i], ctx, env') == Means(arg.items[i], ctx, env)
      {
        PartsDoNotOccur(call, arg.items[i]);
        MeansElsewhere(arg.items[i], ctx, env, env', call);
      }
    }
    if Callee(n).SubFn? {
      if SubParts(arg).Some? { SubElsewhere(ParseSub(SubParts(arg).value.0), arg, ctx, env, env', call); }
    } else if Callee(n).AndFn? || Callee(n).OrFn? || Callee(n).NotFn? || Callee(n).EqualsFn? {
      HoldsElsewhere(n, ctx, env, env', call);
    } else if Callee(n).RefFn? || Callee(n).GetAttFn? || Callee(n).IfFn? || Callee(n).ConditionFn? {
      NameElsewhere(n, ctx, env, env', call);
    } else {
      HandlerElsewhere(n, ctx, env, env', call);
    }
  }

  lemma NameElsewhere(n: Node, ctx: Context, env: Environment, env': Environment, call: Node)
    requires SameElsewhere(env, env', call) && IsCall(n) && n != call && Arg(n) != call
    requires Callee(n).RefFn? || Callee(n).GetAttFn? || Callee(n).IfFn? || Callee(n).ConditionFn?
    requires Arg(n).List? ==> forall i :: 0 <= i < |Arg(n).items| ==>
               Arg(n).items[i] != call && Means(Arg(n).items[i], ctx, env') == Means(Arg(n).items[i], ctx, env)
    ensures CallMeans(n, ctx, env') == CallMeans(n, ctx, env)
  {
    hide Means, FnOf, PseudoOf, ResolveGetAtt;
  }

  lemma HandlerElsewhere(n: Node, ctx: Context, env: Environment, env': Environment, call: Node)
    requires SameElsewhere(env, env', call) && IsCall(n) && n != call
    requires var fn := Callee(n); !(fn.RefFn? || fn.GetAttFn? || fn.IfFn? || fn.ConditionFn? || fn.SubFn?)
    requires var fn := Callee(n); !(fn.AndFn? || fn.OrFn? || fn.NotFn? || fn.EqualsFn?)
    requires Arg(n).List? ==> forall i :: 0 <= i < |Arg(n).items| ==> Means(Arg(n).items[i], ctx, env') == Means(Arg(n).items[i], ctx, env)
    ensures CallMeans(n, ctx, env') == CallMeans(n, ctx, env)
  {
    hide Means, FnOf, Intersperse, SplitText, Verbatim, Descend, IndexOf;
    var arg := Arg(n);
    if Callee(n).JoinFn? && Takes(arg, 2) {
      var parts := Means(arg.items[1], ctx, env);
      if parts.Many? && AllPlain(parts.items) { assert DeployedTexts(parts.items, env') == DeployedTexts(parts.items, env); }
    }
  }

  lemma {:induction false} SubElsewhere(st: SubTemplate, arg: Node, ctx: Context, env: Environment, env': Environment, call: Node)
    requires SameElsewhere(env, env', call) && IsCall(call) && !Occurs(call, arg) && SubParts(arg).Some?
    ensures SubMeans(st, arg, ctx, env') == SubMeans(st, arg, ctx, env)
    decreases arg, 1, st
  {
    hide SlotMeans, Occurs, SubParts, FnOf;
    if st.Slot? {
      SubElsewhere(st.rest, arg, ctx, env, env', call);
      SlotElsewhere(st.name, arg, ctx, env, env', call);
    }
  }

  lemma SlotElsewhere(name: string, arg: Node, ctx: Context, env: Environment, env': Environment, call: Node)
    requires SameElsewhere(env, env', call) && IsCall(call) && !Occurs(call, arg) && SubParts(arg).Some?
    ensures SlotMeans(name, arg, ctx, env') == SlotMeans(name, arg, ctx, env)
    decreases arg, 0
  {
    hide Means, Occurs, FnOf, PseudoOf, FirstDot, ResolveGetAtt;
    var local := SubParts(arg).value.1;
    if Lookup(local, name).Some? {
      LocalIsSmaller(arg, name);
      var i :| 0 <= i < |local| && Lookup(local, name).value == local[i].value;
      PartsDoNotOccur(call, arg);
      PartsDoNotOccur(call, arg.items[1]);
      MeansElsewhere(Lookup(local, name).value, ctx, env, env', call);
    }
  }

  lemma {:induction false} HoldsElsewhere(e: Node, ctx: Context, env: Environment, env': Environment, call: Node)
    requires SameElsewhere(env, env', call) && IsCall(call) && !Occurs(call, e)
    ensures Holds(e, ctx, env') == Holds(e, ctx, env)
    decreases e, 0
  {
    hide Means, Occurs, FnOf;
    PartsDoNotOccur(call, e);
    if IsCall(e) {
      var arg := Arg(e);
      PartsDoNotOccur(call, arg);
      if Callee(e).EqualsFn? && Takes(arg, 2) {
        MeansElsewhere(arg.items[0], ctx, env, env', call);
        MeansElsewhere(arg.items[1], ctx, env, env', call);
      } else if (Callee(e).NotFn? || Callee(e).AndFn? || Callee(e).OrFn?) && arg.List? {
        forall i | 0 <= i < |arg.items|
          ensures Holds(arg.items[i], ctx, env') == Holds(arg.items[i], ctx, env)
        {
          HoldsElsewhere(arg.items[i], ctx, env, env', call);
        }
      }
    }
  }

  /** So a setting stays one when the environment changes its mind about a call that no trusted
      condition may contain. */
  lemma SettingElsewhere(ctx: Context, env: Environment, env': Environment, trust: Trust, call: Node)
    requires Setting(ctx, env, trust) && SameElsewhere(env, env', call) && IsCall(call) && !Lawful(call, ctx, trust)
    ensures Setting(ctx, env', trust)
  {
    hide Lawful, Holds, Literal, FnOf, Occurs;
    forall c | c in trust.conditions && Defined(ctx, c)
      ensures env'.truth(c) == Holds(ctx.conditions[c], ctx, env')
    {
      if Occurs(call, ctx.conditions[c]) { PartIsLawful(call, ctx.conditions[c], ctx, trust); }
      HoldsElsewhere(ctx.conditions[c], ctx, env, env', call);
    }
  }

  // ----- where a resolved value comes from -----

  lemma {:induction false} DescendIsPart(n: Node, keys: seq<string>)
    ensures Descend(n, keys).Some? ==> Occurs(Descend(n, keys).value, n)
    decreases |keys|
  {
    if keys != [] && n.Dict? && Lookup(n.entries, keys[0]).Some? {
      var child := Lookup(n.entries, keys[0]).value;
      var i :| 0 <= i < |n.entries| && child == n.entries[i].value;
      DescendIsPart(child, keys[1..]);
    }
  }

  lemma {:induction false} EndIsPart(n: Node, ctx: Context, depth: nat)
    ensures Ends(n, ctx, depth).Taken? ==>
              Occurs(Ends(n, ctx, depth).node, n) || Occurs(Ends(n, ctx, depth).node, ctx.mappings) || Ends(n, ctx, depth).node.Leaf?
    decreases Remaining(depth)
  {
    hide Occurs, FnOf, EvaluateCondition, PositionOf, MapKeys, Descend;
    if depth > MAX_DEPTH || !IsCall(n) {
      assert Occurs(n, n) by { ItselfOccurs(n); }
    } else {
      var arg := Arg(n);
      if Callee(n).IfFn? && Takes(arg, 3) {
        EndIsPart(arg.items[1], ctx, depth + 1);
        EndIsPart(arg.items[2], ctx, depth + 1);
        ArgumentParts(n);
        EndOfPart(arg.items[1], n, ctx, depth + 1);
        EndOfPart(arg.items[2], n, ctx, depth + 1);
      } else if Callee(n).SelectFn? && Takes(arg, 2) {
        EndIsPart(arg.items[1], ctx, depth + 1);
        ArgumentParts(n);
        var list, position := Ends(arg.items[1], ctx, depth + 1), PositionOf(arg.items[0], ctx, depth + 1);
        if list.Taken? && position.Some? && Pick(list.node, position.value).Some? {
          PickIsPart(list.node, position.value);
          if list.node.List? { EndOfPick(Pick(list.node, position.value).value, arg.items[1], n, ctx, depth + 1); }
        }
      } else if Callee(n).FindInMapFn? && arg.List? && |arg.items| >= 3 && MapKeys(arg.items[..3], ctx, depth).Some? {
        DescendIsPart(ctx.mappings, MapKeys(arg.items[..3], ctx, depth).value.texts);
      }
    }
  }

  lemma ItselfOccurs(n: Node)
    ensures Occurs(n, n)
  {
  }

  lemma ArgumentParts(n: Node)
    requires IsCall(n) && Arg(n).List?
    ensures forall i :: 0 <= i < |Arg(n).items| ==> Occurs(Arg(n).items[i], n)
  {
    hide FnOf;
    forall i | 0 <= i < |Arg(n).items|
      ensures Occurs(Arg(n).items[i], n)
    {
      ItselfOccurs(Arg(n).items[i]);
      assert Occurs(Arg(n).items[i], Arg(n));
    }
  }

  lemma EndOfPart(part: Node, n: Node, ctx: Context, depth: nat)
    requires Occurs(part, n)
    ensures var e := Ends(part, ctx, depth); e.Taken? && Occurs(e.node, part) ==> Occurs(e.node, n)
  {
    hide Occurs, Ends;
    var e := Ends(part, ctx, depth);
    if e.Taken? && Occurs(e.node, part) { PartOfPart(e.node, part, n); }
  }

  lemma EndOfPick(picked: Node, part: Node, n: Node, ctx: Context, depth: nat)
    requires Occurs(part, n) && Ends(part, ctx, depth).Taken? && Occurs(picked, Ends(part, ctx, depth).node)
    ensures Occurs(Ends(part, ctx, depth).node, part) ==> Occurs(picked, n)
    ensures Occurs(Ends(part, ctx, depth).node, ctx.mappings) ==> Occurs(picked, ctx.mappings)
  {
    hide Occurs, Ends;
    var list := Ends(part, ctx, depth).node;
    if Occurs(list, part) { PartOfPart(picked, list, part); PartOfPart(picked, part, n); }
    if Occurs(list, ctx.mappings) { PartOfPart(picked, list, ctx.mappings); }
  }

  lemma PickIsPart(list: Node, position: int)
    requires Pick(list, position).Some?
    ensures list.List? ==> Occurs(Pick(list, position).value, list)
    ensures !list.List? ==> Pick(list, position).value.Leaf?
  {
    if list.List? { ItselfOccurs(Pick(list, position).value); }
  }

  /** A call never occurs in what a part of it resolves to. */
  lemma NoCallInItsParts(call: Node, part: Node, ctx: Context, depth: nat)
    requires IsCall(call) && Literal(ctx.mappings) && part < call && Resolve(part, ctx, depth).Known?
    ensures !Occurs(call, Resolve(part, ctx, depth).value)
  {
    hide Resolve, Ends, Literal, FnOf;
    var v := Resolve(part, ctx, depth).value;
    EndsDecide(part, ctx, depth);
    EndIsPart(part, ctx, depth);
    LiteralHasNoCall(call, ctx.mappings);
    if Occurs(call, v) && !v.Leaf? {
      if Occurs(v, ctx.mappings) { PartOfPart(call, v, ctx.mappings); }
      if Occurs(v, part) {
        PartOfPart(call, v, part);
        PartIsNoLarger(call, part);
      }
    }
  }
}
