/**
  What Remove promises: per token kind for one popped item, and for whole
  pointers made of keys and plain indices.
 */
module RemoveLaws {
  import opened Values
  import opened Tokens
  import opened Traversal
  import RemoveStep
  import opened Worklist

  /** The whole document cannot be removed. */
  lemma RootOnlyRefused(ext: Externals, path: Pointer, doc: Value)
    requires ValidExternals(ext) && |path| == 1
    ensures Remove(ext, path, doc) == Err(CannotRemoveWholeDocument)
  {
  }

  /**
    An index in last position resolves to an element and drops exactly
    that element: one fewer, the others kept in order. The resolver's error
    is the result when it refuses. Without modifiers, an index inside the
    sequence resolves to itself.
   */
  lemma IndexAtEndDrops(ext: Externals, tokens: Pointer, doc: Value, ctx: Ctx, s: seq<Value>)
    requires ValidExternals(ext) && ctx.i + 2 == |tokens| && tokens[ctx.i + 1].Index?
    requires At(doc, ctx.at) == Seq(s)
    ensures var t := tokens[ctx.i + 1];
      var r := RemoveStep.Step(ext, tokens, doc, ctx);
      var idx := ext.arrayIndex(t.index, t.modifiers, s, Prefix(tokens, ctx.i + 2));
      && (idx.Err? ==> r == Halt(idx.error))
      && (idx.Ok? ==>
            && idx.value < |s|
            && r == Next(SetAt(doc, ctx.writeBack, Seq(s[..idx.value] + s[idx.value + 1..])), [])
            && multiset(s[..idx.value] + s[idx.value + 1..]) + multiset{s[idx.value]} == multiset(s))
      && (t.modifiers == [] && 0 <= t.index < |s| ==> idx == Ok(t.index))
  {
    var t := tokens[ctx.i + 1];
    var idx := ext.arrayIndex(t.index, t.modifiers, s, Prefix(tokens, ctx.i + 2));
    if idx.Ok? {
      assert s == s[..idx.value] + [s[idx.value]] + s[idx.value + 1..];
    }
  }

  /** A key in last position is deleted from its mapping, in place; all other keys stay. */
  lemma KeyAtEndDeletes(ext: Externals, tokens: Pointer, doc: Value, ctx: Ctx, m: map<Scalar, Value>)
    requires ValidExternals(ext) && ctx.i + 2 == |tokens| && tokens[ctx.i + 1].Key?
    requires At(doc, ctx.at) == Map(m) && Str(tokens[ctx.i + 1].key) in m
    ensures var k := Str(tokens[ctx.i + 1].key);
      RemoveStep.Step(ext, tokens, doc, ctx) == Next(SetAt(doc, ctx.at, Map(m - {k})), [])
  {
  }

  /**
    An absent key ends this branch quietly when it is optional and fails
    with the keys present otherwise; a key on something that is not a
    mapping is a type error.
   */
  lemma AbsentKey(ext: Externals, tokens: Pointer, doc: Value, ctx: Ctx)
    requires ValidExternals(ext) && ctx.i + 1 < |tokens| && tokens[ctx.i + 1].Key?
    ensures var t := tokens[ctx.i + 1];
      var obj := At(doc, ctx.at);
      var r := RemoveStep.Step(ext, tokens, doc, ctx);
      && (!obj.Map? ==> r == Halt(NotAMapping(Prefix(tokens, ctx.i + 2), obj)))
      && (obj.Map? && Str(t.key) !in obj.entries && t.optional ==> r == Next(doc, []))
      && (obj.Map? && Str(t.key) !in obj.entries && !t.optional ==>
            r == Halt(MissingMapKey(t.key, Prefix(tokens, ctx.i + 2), obj.entries)))
  {
  }

  /**
    `k=v`: no match with the token optional ends the branch quietly; any
    other count than one is the ambiguity error; a unique match in last
    position is dropped from the sequence.
   */
  lemma MatchingIndexCases(ext: Externals, tokens: Pointer, doc: Value, ctx: Ctx, s: seq<Value>)
    requires ValidExternals(ext) && ctx.i + 1 < |tokens| && tokens[ctx.i + 1].Matching?
    requires At(doc, ctx.at) == Seq(s)
    ensures var t := tokens[ctx.i + 1];
      var idxs := MatchingIndices(s, t.mkey, t.mvalue);
      var r := RemoveStep.Step(ext, tokens, doc, ctx);
      && (t.optional && idxs == [] ==> r == Next(doc, []))
      && (!(t.optional && idxs == []) && |idxs| != 1 ==>
            r == Halt(MultipleMatchingIndices(Prefix(tokens, ctx.i + 2), idxs)))
      && (|idxs| == 1 && ctx.i + 2 == |tokens| && t.modifiers == [] ==>
            r == Next(SetAt(doc, ctx.writeBack, Seq(s[..idxs[0]] + s[idxs[0] + 1..])), []))
  {
  }

  /**
    A unique match before the end is descended into, reusing the parent's
    write-back; that element is a mapping, and what a mapping item does
    does not depend on its write-back.
   */
  lemma MatchedChildIsMapping(ext: Externals, tokens: Pointer, doc: Value, ctx: Ctx, s: seq<Value>, w: Location)
    requires ValidExternals(ext) && ctx.i + 2 < |tokens| && tokens[ctx.i + 1].Matching?
    requires tokens[ctx.i + 1].modifiers == []
    requires Reaches(doc, ctx.at) && At(doc, ctx.at) == Seq(s)
    requires |MatchingIndices(s, tokens[ctx.i + 1].mkey, tokens[ctx.i + 1].mvalue)| == 1
    ensures var t := tokens[ctx.i + 1];
      var idx := MatchingIndices(s, t.mkey, t.mvalue)[0];
      var child := Ctx(ctx.at + [IndexStep(idx)], ctx.writeBack, ctx.i + 1);
      && RemoveStep.Step(ext, tokens, doc, ctx) == Next(doc, [child])
      && At(doc, child.at).Map?
      && RemoveStep.Step(ext, tokens, doc, child) == RemoveStep.Step(ext, tokens, doc, Ctx(child.at, w, child.i))
  {
    var t := tokens[ctx.i + 1];
    var idx := MatchingIndices(s, t.mkey, t.mvalue)[0];
    AtExtend(doc, ctx.at, [IndexStep(idx)]);
  }

  /** `-` and a root token cannot be removed; `*` must not be last. */
  lemma UnremovableTokens(ext: Externals, tokens: Pointer, doc: Value, ctx: Ctx)
    requires ValidExternals(ext) && ctx.i + 1 < |tokens|
    ensures var t := tokens[ctx.i + 1];
      var r := RemoveStep.Step(ext, tokens, doc, ctx);
      && (t.AfterLast? || t.Root? ==> r == Halt(UnexpectedToken(t, Prefix(tokens, ctx.i + 2))))
      && (t.Wildcard? && ctx.i + 2 == |tokens| ==> r == Halt(WildcardMustNotBeLast))
  {
  }

  /**
    `*` before the end, on a sequence, pushes one item per element, each
    bound to its own position, and changes nothing yet.
   */
  lemma WildcardFansOut(ext: Externals, tokens: Pointer, doc: Value, ctx: Ctx)
    requires ValidExternals(ext) && ctx.i + 2 < |tokens| && tokens[ctx.i + 1] == Wildcard
    requires At(doc, ctx.at).Seq?
    ensures var r := RemoveStep.Step(ext, tokens, doc, ctx);
      && r.Next? && r.doc == doc && |r.pushed| == |At(doc, ctx.at).items|
      && forall j :: 0 <= j < |r.pushed| ==> r.pushed[j] == Ctx(ctx.at + [IndexStep(j)], ctx.at + [IndexStep(j)], ctx.i + 1)
  {
  }

  /**
    An index, `k=v` or `*` before the end on something that is not a
    sequence fails with a type mismatch at the current path.
   */
  lemma MismatchesFail(ext: Externals, tokens: Pointer, doc: Value, ctx: Ctx)
    requires ValidExternals(ext) && ctx.i + 1 < |tokens|
    ensures var t := tokens[ctx.i + 1];
      var obj := At(doc, ctx.at);
      (t.Index? || t.Matching? || (t.Wildcard? && ctx.i + 2 < |tokens|)) && !obj.Seq? ==>
        RemoveStep.Step(ext, tokens, doc, ctx) == Halt(NotASequence(Prefix(tokens, ctx.i + 2), obj))
  {
  }

  /** The container at the end of a plain pointer after the remove: without the key, or without the element. */
  function Dropped(container: Value, t: Token): Value
    requires PlainToken(t)
  {
    if t.Key? && container.Map? then Map(container.entries - {Str(t.key)})
    else if t.Index? && container.Seq? && t.index < |container.items| then Seq(RemoveStep.Without(container.items, t.index))
    else container
  }

  /** A plain token before the end, on a container that holds its child, descends into that child. */
  lemma PlainStepDescends(ext: Externals, tokens: Pointer, doc: Value, at: Location, i: nat)
    requires ValidExternals(ext) && i + 2 < |tokens| && PlainToken(tokens[i + 1])
    requires Reaches(At(doc, at), [StepOf(tokens[i + 1])])
    ensures RemoveStep.Step(ext, tokens, doc, Ctx(at, at, i)) == Next(doc, [Child(at, StepOf(tokens[i + 1]), i + 1)])
  {
  }

  /** A plain token at the end, on a container that holds its child, removes that child. */
  lemma PlainStepEnds(ext: Externals, tokens: Pointer, doc: Value, at: Location, i: nat)
    requires ValidExternals(ext) && i + 2 == |tokens| && PlainToken(tokens[i + 1])
    requires Reaches(At(doc, at), [StepOf(tokens[i + 1])])
    ensures RemoveStep.Step(ext, tokens, doc, Ctx(at, at, i)) == Next(SetAt(doc, at, Dropped(At(doc, at), tokens[i + 1])), [])
  {
  }

  /** Remove along a plain pointer whose every step exists, from the item after `i` tokens. */
  lemma {:induction false} PlainStepsFrom(ext: Externals, tokens: Pointer, doc: Value, i: nat)
    requires ValidExternals(ext) && PlainSteps(tokens) && |tokens| >= 2 && i + 2 <= |tokens|
    requires Reaches(doc, StepTarget(tokens))
    ensures var at := StepPath(tokens, i + 1);
      Drain(ext, tokens, Removing, doc, [Ctx(at, at, i)]).outcome ==
        Ok(SetAt(doc, StepParent(tokens), Dropped(At(doc, StepParent(tokens)), tokens[|tokens| - 1])))
    decreases |tokens| - i
  {
    var at := StepPath(tokens, i + 1);
    var ctx := Ctx(at, at, i);
    var target := StepTarget(tokens);
    var step := StepOf(tokens[i + 1]);
    PopStep(ext, tokens, Removing, doc, [ctx]);
    assert target[..i] == at;
    assert target[..i + 1] == at + [step];
    ReachesPrefix(doc, target, i);
    ReachesPrefix(doc, target, i + 1);
    AtExtend(doc, at, [step]);
    if i + 2 == |tokens| {
      PlainStepEnds(ext, tokens, doc, at, i);
      var none: seq<Ctx> := [];
      assert none + none == none;
    } else {
      PlainStepDescends(ext, tokens, doc, at, i);
      assert at + [step] == StepPath(tokens, i + 2);
      assert [] + [Child(at, step, i + 1)] == [Ctx(StepPath(tokens, i + 2), StepPath(tokens, i + 2), i + 1)];
      PlainStepsFrom(ext, tokens, doc, i + 1);
    }
  }

  /**
    Remove along a plain pointer whose every step exists takes the last
    child out of its container: a key is deleted, so the pointer no longer
    resolves, and the mapping keeps every other key; an element is
    dropped, and the sequence keeps the others in order. Every slot off the
    path is unchanged.
   */
  lemma RemoveThenFind(ext: Externals, tokens: Pointer, doc: Value)
    requires ValidExternals(ext) && PlainSteps(tokens) && |tokens| >= 2
    requires Reaches(doc, StepTarget(tokens))
    ensures var r := Remove(ext, tokens, doc);
      var parent := StepParent(tokens);
      var t := tokens[|tokens| - 1];
      && r == Ok(SetAt(doc, parent, Dropped(At(doc, parent), t)))
      && Reaches(r.value, parent)
      && (t.Key? ==>
            && At(doc, parent).Map? && At(r.value, parent).Map?
            && !Reaches(r.value, StepTarget(tokens))
            && At(r.value, parent).entries.Keys == At(doc, parent).entries.Keys - {LastKey(tokens)}
            && forall k :: k in At(r.value, parent).entries ==> At(r.value, parent).entries[k] == At(doc, parent).entries[k])
      && (t.Index? ==>
            && At(doc, parent).Seq? && t.index < |At(doc, parent).items|
            && At(r.value, parent) == Seq(RemoveStep.Without(At(doc, parent).items, t.index)))
      && forall other :: Diverge(parent, other) ==> At(r.value, other) == At(doc, other)
  {
    PlainStepsFrom(ext, tokens, doc, 0);
    var parent := StepParent(tokens);
    var target := StepTarget(tokens);
    var t := tokens[|tokens| - 1];
    assert target == parent + [StepOf(t)];
    assert target[..|tokens| - 2] == parent;
    ReachesPrefix(doc, target, |tokens| - 2);
    AtExtend(doc, parent, [StepOf(t)]);
    var written := Dropped(At(doc, parent), t);
    var result := SetAt(doc, parent, written);
    AtSetAt(doc, parent, written);
    AtExtend(result, parent, [StepOf(t)]);
    forall other | Diverge(parent, other)
      ensures At(result, other) == At(doc, other)
    {
      SetAtFrame(doc, parent, other, written);
    }
  }
}
