/**
  What Remove does with one popped work item: the body of the
  `for len(ctxStack) != 0` loop of `RemoveOp.Apply`, as a function.
 */
module RemoveStep {
  import opened Values
  import opened Tokens
  import opened Traversal

  /** The sequence without its element at `idx`, the others kept in order. */
  function Without(s: seq<Value>, idx: nat): (r: seq<Value>)
    requires idx < |s|
    ensures |r| == |s| - 1
    ensures forall j :: 0 <= j < idx ==> r[j] == s[j]
    ensures forall j :: idx <= j < |r| ==> r[j] == s[j + 1]
  {
    s[..idx] + s[idx + 1..]
  }

  function Step(ext: Externals, tokens: Pointer, doc: Value, ctx: Ctx): (r: StepResult)
    requires ValidExternals(ext)
    ensures Deeper(tokens, ctx, r)
  {
    if ctx.i + 1 >= |tokens| then Next(doc, [])
    else
      var isLast := ctx.i + 2 == |tokens|;
      var currPath := Prefix(tokens, ctx.i + 2);
      var obj := At(doc, ctx.at);
      match tokens[ctx.i + 1]
      case Index(index, mods) =>
        if !obj.Seq? then Halt(NotASequence(currPath, obj))
        else
          (match ext.arrayIndex(index, mods, obj.items, currPath)
           case Err(e) => Halt(e)
           case Ok(idx) =>
             if isLast then Next(SetAt(doc, ctx.writeBack, Seq(Without(obj.items, idx))), [])
             else Next(doc, [Child(ctx.at, IndexStep(idx), ctx.i + 1)]))

      case Matching(key, val, optional, mods) =>
        if !obj.Seq? then Halt(NotASequence(currPath, obj))
        else
          var idxs := MatchingIndices(obj.items, key, val);
          if optional && idxs == [] then Next(doc, [])
          else if |idxs| != 1 then Halt(MultipleMatchingIndices(currPath, idxs))
          else
            (match ext.arrayIndex(idxs[0], mods, obj.items, currPath)
             case Err(e) => Halt(e)
             case Ok(idx) =>
               if isLast then Next(SetAt(doc, ctx.writeBack, Seq(Without(obj.items, idx))), [])
               else Next(doc, [Ctx(ctx.at + [IndexStep(idx)], ctx.writeBack, ctx.i + 1)]))

      case Key(key, optional) =>
        if !obj.Map? then Halt(NotAMapping(currPath, obj))
        else if Str(key) !in obj.entries then
          if optional then Next(doc, []) else Halt(MissingMapKey(key, currPath, obj.entries))
        else if isLast then Next(SetAt(doc, ctx.at, Map(obj.entries - {Str(key)})), [])
        else Next(doc, [Child(ctx.at, KeyStep(Str(key)), ctx.i + 1)])

      case Wildcard =>
        if isLast then Halt(WildcardMustNotBeLast)
        else if !obj.Seq? then Halt(NotASequence(currPath, obj))
        else Next(doc, Fanout(ctx.at, ctx.i + 1, |obj.items|))

      case AfterLast => Halt(UnexpectedToken(AfterLast, currPath))
      case Root => Halt(UnexpectedToken(Root, currPath))
  }
}
