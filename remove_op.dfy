/**
  `RemoveOp.Apply`: the worklist loop, proved to compute `Worklist.Remove`.
 */
module RemoveOp {
  import opened Values
  import opened Tokens
  import opened Traversal
  import RemoveStep
  import opened Worklist

  /** The switch on the next token for one popped item. */
  method Dispatch(ext: Externals, path: Pointer, doc: Value, ctx: Ctx) returns (res: StepResult)
    requires ValidExternals(ext)
    requires ctx.i + 1 < |path|
    ensures res == RemoveStep.Step(ext, path, doc, ctx)
  {
    var token := path[ctx.i + 1];
    var isLast := ctx.i == |path| - 2;
    var currPath: Pointer := path[..ctx.i + 2];
    var obj := At(doc, ctx.at);
    match token {
      case Index(index, mods) =>
        if !obj.Seq? {
          return Halt(NotASequence(currPath, obj));
        }
        var idx := ext.arrayIndex(index, mods, obj.items, currPath);
        if idx.Err? {
          return Halt(idx.error);
        }
        if isLast {
          var rebuilt := RemoveStep.Without(obj.items, idx.value);
          res := Next(SetAt(doc, ctx.writeBack, Seq(rebuilt)), []);
        } else {
          res := Next(doc, [Child(ctx.at, IndexStep(idx.value), ctx.i + 1)]);
        }

      case Matching(key, val, optional, mods) =>
        if !obj.Seq? {
          return Halt(NotASequence(currPath, obj));
        }
        var idxs := CollectMatches(obj.items, key, val);
        if optional && |idxs| == 0 {
          return Next(doc, []);
        }
        if |idxs| != 1 {
          return Halt(MultipleMatchingIndices(currPath, idxs));
        }
        var idx := ext.arrayIndex(idxs[0], mods, obj.items, currPath);
        if idx.Err? {
          return Halt(idx.error);
        }
        if isLast {
          var rebuilt := RemoveStep.Without(obj.items, idx.value);
          res := Next(SetAt(doc, ctx.writeBack, Seq(rebuilt)), []);
        } else {
          // the matched element is a map, so the item keeps its parent's write-back
          res := Next(doc, [Ctx(ctx.at + [IndexStep(idx.value)], ctx.writeBack, ctx.i + 1)]);
        }

      case Key(key, optional) =>
        if !obj.Map? {
          return Halt(NotAMapping(currPath, obj));
        }
        if Str(key) !in obj.entries {
          if optional {
            return Next(doc, []);
          }
          return Halt(MissingMapKey(key, currPath, obj.entries));
        }
        if isLast {
          res := Next(SetAt(doc, ctx.at, Map(obj.entries - {Str(key)})), []);
        } else {
          res := Next(doc, [Child(ctx.at, KeyStep(Str(key)), ctx.i + 1)]);
        }

      case Wildcard =>
        if isLast {
          return Halt(WildcardMustNotBeLast);
        }
        if !obj.Seq? {
          return Halt(NotASequence(currPath, obj));
        }
        var pushed := PushBranches([], ctx.at, ctx.i + 1, |obj.items|);
        res := Next(doc, pushed);

      case AfterLast =>
        return Halt(UnexpectedToken(token, currPath));
      case Root =>
        return Halt(UnexpectedToken(token, currPath));
    }
  }

  /** Remove the value at `path` from `doc`; the whole document cannot be removed. */
  method Apply(ext: Externals, path: Pointer, doc: Value) returns (r: Result<Value>)
    requires ValidExternals(ext)
    ensures r == Remove(ext, path, doc)
  {
    if |path| == 1 {
      return Err(CannotRemoveWholeDocument);
    }
    var current := doc;
    var stack := [Start()];
    while stack != []
      invariant Drain(ext, path, Removing, current, stack).outcome == Remove(ext, path, doc)
      decreases Drain(ext, path, Removing, current, stack).pops
    {
      var ctx := stack[|stack| - 1];
      PopStep(ext, path, Removing, current, stack);
      stack := stack[..|stack| - 1];
      if ctx.i + 1 >= |path| {
        assert stack + [] == stack;
        continue;
      }
      var res := Dispatch(ext, path, current, ctx);
      if res.Halt? {
        return Err(res.error);
      }
      current := res.doc;
      stack := stack + res.pushed;
    }
    return Ok(current);
  }
}
