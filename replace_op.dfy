/**
  `ReplaceOp.Apply`: the worklist loop, proved to compute `Worklist.Replace`.
 */
module ReplaceOp {
  import opened Values
  import opened Tokens
  import opened Traversal
  import ReplaceStep
  import opened Worklist

  /** The `k=v` case of the switch: the match scan, then append, descend or overwrite. */
  method DispatchMatching(ext: Externals, path: Pointer, value: Value, doc: Value, ctx: Ctx) returns (res: StepResult)
    requires ValidExternals(ext)
    requires ctx.i + 1 < |path| && path[ctx.i + 1].Matching?
    ensures res == ReplaceStep.Step(ext, path, value, doc, ctx)
  {
    var Matching(key, val, optional, mods) := path[ctx.i + 1];
    var isLast := ctx.i == |path| - 2;
    var currPath: Pointer := path[..ctx.i + 2];
    var obj := At(doc, ctx.at);
    if !obj.Seq? {
      return Halt(NotASequence(currPath, obj));
    }
    var idxs := CollectMatches(obj.items, key, val);
    if optional && |idxs| == 0 {
      if isLast {
        var cloned := ext.cloneValue(value);
        if cloned.CloneError? {
          return Halt(CloneFailed(cloned.reason));
        }
        res := Next(SetAt(doc, ctx.writeBack, Seq(obj.items + [cloned.copy])), []);
      } else {
        var o := Map(map[Str(key) := Atom(Str(val))]);
        var grown := SetAt(doc, ctx.writeBack, Seq(obj.items + [o]));
        // the new element can only be a map, so the item keeps its parent's write-back
        res := Next(grown, [Ctx(ctx.writeBack + [IndexStep(|obj.items|)], ctx.writeBack, ctx.i + 1)]);
      }
    } else {
      if |idxs| != 1 {
        return Halt(MultipleMatchingIndices(currPath, idxs));
      }
      if isLast {
        var cloned := ext.cloneValue(value);
        var c := if cloned.Cloned? then cloned.copy else Atom(Null);
        var slot := ext.arrayInsertion(idxs[0], mods, obj.items, currPath);
        if slot.Err? {
          return Halt(slot.error);
        }
        res := Next(SetAt(doc, ctx.writeBack, Seq(Update(slot.value, obj.items, c))), []);
      } else {
        var idx := ext.arrayIndex(idxs[0], mods, obj.items, currPath);
        if idx.Err? {
          return Halt(idx.error);
        }
        res := Next(doc, [Ctx(ctx.at + [IndexStep(idx.value)], ctx.writeBack, ctx.i + 1)]);
      }
    }
  }

  /** The key case of the switch: set the key at the end, or descend, creating an absent optional key's container. */
  method DispatchKey(ext: Externals, path: Pointer, value: Value, doc: Value, ctx: Ctx) returns (res: StepResult)
    requires ValidExternals(ext)
    requires ctx.i + 1 < |path| && path[ctx.i + 1].Key?
    ensures res == ReplaceStep.Step(ext, path, value, doc, ctx)
  {
    var Key(key, optional) := path[ctx.i + 1];
    var isLast := ctx.i == |path| - 2;
    var currPath: Pointer := path[..ctx.i + 2];
    var obj := At(doc, ctx.at);
    if !obj.Map? {
      return Halt(NotAMapping(currPath, obj));
    }
    var found := Str(key) in obj.entries;
    if !found && !optional {
      return Halt(MissingMapKey(key, currPath, obj.entries));
    }
    if isLast {
      var cloned := ext.cloneValue(value);
      if cloned.CloneError? {
        return Halt(CloneFailed(cloned.reason));
      }
      res := Next(SetAt(doc, ctx.at, Map(obj.entries[Str(key) := cloned.copy])), []);
    } else {
      var current := doc;
      if !found {
        var o: Value;
        match path[ctx.i + 2] {
          case AfterLast => o := Seq([]);
          case Wildcard => o := Seq([]);
          case Matching(_, _, _, _) => o := Seq([]);
          case Key(_, _) => o := Map(map[]);
          case _ =>
            return Halt(MissingContainerToken(path[..ctx.i + 3]));
        }
        current := SetAt(doc, ctx.at, Map(obj.entries[Str(key) := o]));
      }
      res := Next(current, [Child(ctx.at, KeyStep(Str(key)), ctx.i + 1)]);
    }
  }

  /** The switch on the next token for one popped item. */
  method Dispatch(ext: Externals, path: Pointer, value: Value, doc: Value, ctx: Ctx) returns (res: StepResult)
    requires ValidExternals(ext)
    requires ctx.i + 1 < |path|
    ensures res == ReplaceStep.Step(ext, path, value, doc, ctx)
  {
    var token := path[ctx.i + 1];
    var isLast := ctx.i == |path| - 2;
    var currPath: Pointer := path[..ctx.i + 2];
    var obj := At(doc, ctx.at);
    match token {
      case Index(index, mods) =>
        if !obj.Seq? {
          return Halt(NotASequence(currPath, obj));
        }
        if isLast {
          var cloned := ext.cloneValue(value);
          if cloned.CloneError? {
            return Halt(CloneFailed(cloned.reason));
          }
          var slot := ext.arrayInsertion(index, mods, obj.items, currPath);
          if slot.Err? {
            return Halt(slot.error);
          }
          res := Next(SetAt(doc, ctx.writeBack, Seq(Update(slot.value, obj.items, cloned.copy))), []);
        } else {
          var idx := ext.arrayIndex(index, mods, obj.items, currPath);
          if idx.Err? {
            return Halt(idx.error);
          }
          res := Next(doc, [Child(ctx.at, IndexStep(idx.value), ctx.i + 1)]);
        }

      case AfterLast =>
        if !obj.Seq? {
          return Halt(NotASequence(currPath, obj));
        }
        if !isLast {
          return Halt(AfterLastIndexNotLast(path));
        }
        var cloned := ext.cloneValue(value);
        if cloned.CloneError? {
          return Halt(CloneFailed(cloned.reason));
        }
        res := Next(SetAt(doc, ctx.writeBack, Seq(obj.items + [cloned.copy])), []);

      case Matching(_, _, _, _) =>
        res := DispatchMatching(ext, path, value, doc, ctx);

      case Key(_, _) =>
        res := DispatchKey(ext, path, value, doc, ctx);

      case Wildcard =>
        if isLast {
          return Halt(WildcardMustNotBeLast);
        }
        if !obj.Seq? {
          return Halt(NotASequence(currPath, obj));
        }
        var pushed := PushBranches([], ctx.at, ctx.i + 1, |obj.items|);
        res := Next(doc, pushed);

      case Root =>
        return Halt(UnexpectedToken(token, currPath));
    }
  }

  /**
    Replace the value at `path` in `doc` with a clone of `value`. A
    root-only pointer returns the clone as the new document.
   */
  method Apply(ext: Externals, path: Pointer, value: Value, doc: Value) returns (r: Result<Value>)
    requires ValidExternals(ext)
    ensures r == Replace(ext, path, value, doc)
  {
    if |path| == 1 {
      var cloned := ext.cloneValue(value);
      if cloned.CloneError? {
        return Err(CloneFailed(cloned.reason));
      }
      return Ok(cloned.copy);
    }
    var current := doc;
    var stack := [Start()];
    while stack != []
      invariant Drain(ext, path, Replacing(value), current, stack).outcome == Replace(ext, path, value, doc)
      decreases Drain(ext, path, Replacing(value), current, stack).pops
    {
      var ctx := stack[|stack| - 1];
      PopStep(ext, path, Replacing(value), current, stack);
      stack := stack[..|stack| - 1];
      if ctx.i + 1 >= |path| {
        assert stack + [] == stack;
        continue;
      }
      var res := Dispatch(ext, path, value, current, ctx);
      if res.Halt? {
        return Err(res.error);
      }
      current := res.doc;
      stack := stack + res.pushed;
    }
    return Ok(current);
  }
}
