/**
  What Replace does with one popped work item: the body of the
  `for len(ctxStack) != 0` loop of `ReplaceOp.Apply`, as a function.
 */
module ReplaceStep {
  import opened Values
  import opened Tokens
  import opened Traversal

  /** The replacement clone, or the error that wraps the clone failure. */
  function CloneOr(ext: Externals, value: Value): Result<Value>
  {
    match ext.cloneValue(value)
    case Cloned(c) => Ok(c)
    case CloneError(reason) => Err(CloneFailed(reason))
  }

  /**
    The clone at the one call site that ignores the clone's error: the
    error variable is overwritten before it is read, so a failed clone
    leaves the Go nil (here null) as the value written.
   */
  function ClonedOrNull(ext: Externals, value: Value): Value
  {
    match ext.cloneValue(value)
    case Cloned(c) => c
    case CloneError(_) => Atom(Null)
  }

  /** The container created for an absent optional key, chosen by the token after it. */
  function NewContainer(next: Token, path: Pointer): Result<Value>
  {
    match next
    case AfterLast => Ok(Seq([]))
    case Wildcard => Ok(Seq([]))
    case Matching(_, _, _, _) => Ok(Seq([]))
    case Key(_, _) => Ok(Map(map[]))
    case _ => Err(MissingContainerToken(path))
  }

  function Step(ext: Externals, tokens: Pointer, value: Value, doc: Value, ctx: Ctx): (r: StepResult)
    requires ValidExternals(ext)
    ensures Deeper(tokens, ctx, r)
  {
    if ctx.i + 1 >= |tokens| then Next(doc, [])
    else
      var isLast := ctx.i + 2 == |tokens|;
      var currPath := Prefix(tokens, ctx.i + 2);
      var obj := At(doc, ctx.at);
      match tokens[ctx.i + 1]
      case Index(index, mods) =>
        if !obj.Seq? then Halt(NotASequence(currPath, obj))
        else if isLast then
          (match CloneOr(ext, value)
           case Err(e) => Halt(e)
           case Ok(c) =>
             match ext.arrayInsertion(index, mods, obj.items, currPath)
             case Err(e) => Halt(e)
             case Ok(slot) => Next(SetAt(doc, ctx.writeBack, Seq(Update(slot, obj.items, c))), []))
        else
          (match ext.arrayIndex(index, mods, obj.items, currPath)
           case Err(e) => Halt(e)
           case Ok(idx) => Next(doc, [Child(ctx.at, IndexStep(idx), ctx.i + 1)]))

      case AfterLast =>
        if !obj.Seq? then Halt(NotASequence(currPath, obj))
        else if isLast then
          (match CloneOr(ext, value)
           case Err(e) => Halt(e)
           case Ok(c) => Next(SetAt(doc, ctx.writeBack, Seq(obj.items + [c])), []))
        else Halt(AfterLastIndexNotLast(tokens))

      case Matching(key, val, optional, mods) =>
        if !obj.Seq? then Halt(NotASequence(currPath, obj))
        else
          var idxs := MatchingIndices(obj.items, key, val);
          if optional && idxs == [] then
            if isLast then
              (match CloneOr(ext, value)
               case Err(e) => Halt(e)
               case Ok(c) => Next(SetAt(doc, ctx.writeBack, Seq(obj.items + [c])), []))
            else
              var o := Map(map[Str(key) := Atom(Str(val))]);
              Next(SetAt(doc, ctx.writeBack, Seq(obj.items + [o])),
                   [Ctx(ctx.writeBack + [IndexStep(|obj.items|)], ctx.writeBack, ctx.i + 1)])
          else if |idxs| != 1 then Halt(MultipleMatchingIndices(currPath, idxs))
          else if isLast then
            var c := ClonedOrNull(ext, value);
            (match ext.arrayInsertion(idxs[0], mods, obj.items, currPath)
             case Err(e) => Halt(e)
             case Ok(slot) => Next(SetAt(doc, ctx.writeBack, Seq(Update(slot, obj.items, c))), []))
          else
            (match ext.arrayIndex(idxs[0], mods, obj.items, currPath)
             case Err(e) => Halt(e)
             case Ok(idx) => Next(doc, [Ctx(ctx.at + [IndexStep(idx)], ctx.writeBack, ctx.i + 1)]))

      case Key(key, optional) =>
        if !obj.Map? then Halt(NotAMapping(currPath, obj))
        else if Str(key) !in obj.entries && !optional then Halt(MissingMapKey(key, currPath, obj.entries))
        else if isLast then
          (match CloneOr(ext, value)
           case Err(e) => Halt(e)
           case Ok(c) => Next(SetAt(doc, ctx.at, Map(obj.entries[Str(key) := c])), []))
        else if Str(key) in obj.entries then
          Next(doc, [Child(ctx.at, KeyStep(Str(key)), ctx.i + 1)])
        else
          (match NewContainer(tokens[ctx.i + 2], Prefix(tokens, ctx.i + 3))
           case Err(e) => Halt(e)
           case Ok(o) =>
             Next(SetAt(doc, ctx.at, Map(obj.entries[Str(key) := o])), [Child(ctx.at, KeyStep(Str(key)), ctx.i + 1)]))

      case Wildcard =>
        if isLast then Halt(WildcardMustNotBeLast)
        else if !obj.Seq? then Halt(NotASequence(currPath, obj))
        else Next(doc, Fanout(ctx.at, ctx.i + 1, |obj.items|))

      case Root => Halt(UnexpectedToken(Root, currPath))
  }
}
