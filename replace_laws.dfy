/**
  What Replace promises: per token kind for one popped item, and for whole
  pointers made of keys and plain indices.
 */
module ReplaceLaws {
  import opened Values
  import opened Tokens
  import opened Traversal
  import ReplaceStep
  import opened Worklist

  /** An item with no token left to consume is dropped: no change, nothing pushed. */
  lemma ExhaustedItemDropped(ext: Externals, tokens: Pointer, value: Value, doc: Value, ctx: Ctx)
    requires ValidExternals(ext) && ctx.i + 1 >= |tokens|
    ensures ReplaceStep.Step(ext, tokens, value, doc, ctx) == Next(doc, [])
  {
  }

  /** A root-only pointer returns the clone of the value, whatever the document. */
  lemma RootOnlyReturnsClone(ext: Externals, path: Pointer, value: Value, doc: Value, other: Value)
    requires ValidExternals(ext) && |path| == 1
    ensures Replace(ext, path, value, doc) == Replace(ext, path, value, other)
    ensures ext.cloneValue(value).Cloned? ==> Replace(ext, path, value, doc) == Ok(value)
    ensures ext.cloneValue(value).CloneError? ==>
      Replace(ext, path, value, doc) == Err(CloneFailed(ext.cloneValue(value).reason))
  {
  }

  /**
    A key in last position writes the value at exactly that key of the
    mapping, in place; an absent key that is not optional fails first.
   */
  lemma KeyAtEnd(ext: Externals, tokens: Pointer, value: Value, doc: Value, ctx: Ctx, m: map<Scalar, Value>)
    requires ValidExternals(ext) && ctx.i + 2 == |tokens| && tokens[ctx.i + 1].Key?
    requires At(doc, ctx.at) == Map(m) && ext.cloneValue(value).Cloned?
    ensures var t := tokens[ctx.i + 1];
      ReplaceStep.Step(ext, tokens, value, doc, ctx) ==
        if Str(t.key) !in m && !t.optional then Halt(MissingMapKey(t.key, Prefix(tokens, ctx.i + 2), m))
        else Next(SetAt(doc, ctx.at, Map(m[Str(t.key) := value])), [])
  {
  }

  /**
    An absent optional key before the end gets a new container, chosen by
    the next token: a sequence before `-`, `*` or `k=v`, a mapping before a
    key; before anything else the path is refused.
   */
  lemma MissingOptionalKeyCreates(ext: Externals, tokens: Pointer, value: Value, doc: Value, ctx: Ctx, m: map<Scalar, Value>)
    requires ValidExternals(ext) && ctx.i + 2 < |tokens|
    requires tokens[ctx.i + 1].Key? && tokens[ctx.i + 1].optional
    requires At(doc, ctx.at) == Map(m) && Str(tokens[ctx.i + 1].key) !in m
    ensures var k := Str(tokens[ctx.i + 1].key);
      var child := [Ctx(ctx.at + [KeyStep(k)], ctx.at + [KeyStep(k)], ctx.i + 1)];
      var r := ReplaceStep.Step(ext, tokens, value, doc, ctx);
      match tokens[ctx.i + 2]
      case AfterLast => r == Next(SetAt(doc, ctx.at, Map(m[k := Seq([])])), child)
      case Wildcard => r == Next(SetAt(doc, ctx.at, Map(m[k := Seq([])])), child)
      case Matching(_, _, _, _) => r == Next(SetAt(doc, ctx.at, Map(m[k := Seq([])])), child)
      case Key(_, _) => r == Next(SetAt(doc, ctx.at, Map(m[k := Map(map[])])), child)
      case _ => r == Halt(MissingContainerToken(Prefix(tokens, ctx.i + 3)))
  {
  }

  /** `-` in last position appends the value: one element more, the others kept in order. */
  lemma AfterLastAppends(ext: Externals, tokens: Pointer, value: Value, doc: Value, ctx: Ctx, s: seq<Value>)
    requires ValidExternals(ext) && ctx.i + 1 < |tokens| && tokens[ctx.i + 1] == AfterLast
    requires At(doc, ctx.at) == Seq(s) && ext.cloneValue(value).Cloned?
    ensures ctx.i + 2 < |tokens| ==>
      ReplaceStep.Step(ext, tokens, value, doc, ctx) == Halt(AfterLastIndexNotLast(tokens))
    ensures ctx.i + 2 == |tokens| ==>
      var s' := s + [value];
      && ReplaceStep.Step(ext, tokens, value, doc, ctx) == Next(SetAt(doc, ctx.writeBack, Seq(s')), [])
      && |s'| == |s| + 1 && s'[..|s|] == s && s'[|s|] == value
  {
    assert (s + [value])[..|s|] == s;
  }

  /**
    An index in last position clones the value, resolves an insertion
    point and writes the value there: the resolver's error is the result
    when it refuses. Without modifiers, an index inside the sequence
    overwrites exactly that element and keeps the others.
   */
  lemma IndexAtEndOverwrites(ext: Externals, tokens: Pointer, value: Value, doc: Value, ctx: Ctx, s: seq<Value>)
    requires ValidExternals(ext) && ctx.i + 2 == |tokens| && tokens[ctx.i + 1].Index?
    requires At(doc, ctx.at) == Seq(s) && ext.cloneValue(value).Cloned?
    ensures var t := tokens[ctx.i + 1];
      var r := ReplaceStep.Step(ext, tokens, value, doc, ctx);
      var slot := ext.arrayInsertion(t.index, t.modifiers, s, Prefix(tokens, ctx.i + 2));
      && (slot.Err? ==> r == Halt(slot.error))
      && (slot.Ok? ==> r == Next(SetAt(doc, ctx.writeBack, Seq(Update(slot.value, s, value))), []))
    ensures var t := tokens[ctx.i + 1];
      t.modifiers == [] && 0 <= t.index < |s| ==>
        var s' := s[t.index := value];
        && ReplaceStep.Step(ext, tokens, value, doc, ctx) == Next(SetAt(doc, ctx.writeBack, Seq(s')), [])
        && |s'| == |s| && s'[t.index] == value
        && forall j :: 0 <= j < |s| && j != t.index ==> s'[j] == s[j]
  {
  }

  /**
    `k=v` selects the elements that are mappings holding the string `v` at
    `k`. With none and the token optional, the value is appended at the
    end, or a mapping `{k: v}` is appended and traversed. Any other count
    than one is the ambiguity error. Without modifiers, one match at the
    end is overwritten with the value, and one match before the end is
    descended into, and that element is a mapping.
   */
  lemma MatchingIndexCases(ext: Externals, tokens: Pointer, value: Value, doc: Value, ctx: Ctx, s: seq<Value>)
    requires ValidExternals(ext) && ctx.i + 1 < |tokens| && tokens[ctx.i + 1].Matching?
    requires Reaches(doc, ctx.at) && At(doc, ctx.at) == Seq(s) && ext.cloneValue(value).Cloned?
    ensures var t := tokens[ctx.i + 1];
      var idxs := MatchingIndices(s, t.mkey, t.mvalue);
      var r := ReplaceStep.Step(ext, tokens, value, doc, ctx);
      && (t.optional && idxs == [] && ctx.i + 2 == |tokens| ==>
            r == Next(SetAt(doc, ctx.writeBack, Seq(s + [value])), []))
      && (t.optional && idxs == [] && ctx.i + 2 < |tokens| ==>
            r == Next(SetAt(doc, ctx.writeBack, Seq(s + [Map(map[Str(t.mkey) := Atom(Str(t.mvalue))])])),
                      [Ctx(ctx.writeBack + [IndexStep(|s|)], ctx.writeBack, ctx.i + 1)]))
      && (!(t.optional && idxs == []) && |idxs| != 1 ==>
            r == Halt(MultipleMatchingIndices(Prefix(tokens, ctx.i + 2), idxs)))
      && (|idxs| == 1 && ctx.i + 2 == |tokens| && t.modifiers == [] ==>
            r == Next(SetAt(doc, ctx.writeBack, Seq(s[idxs[0] := value])), []))
      && (|idxs| == 1 && ctx.i + 2 < |tokens| && t.modifiers == [] ==>
            && r == Next(doc, [Ctx(ctx.at + [IndexStep(idxs[0])], ctx.writeBack, ctx.i + 1)])
            && At(doc, ctx.at + [IndexStep(idxs[0])]).Map?)
  {
    var t := tokens[ctx.i + 1];
    var idxs := MatchingIndices(s, t.mkey, t.mvalue);
    if |idxs| == 1 {
      AtExtend(doc, ctx.at, [IndexStep(idxs[0])]);
    }
  }

  /**
    `*` in last position is an error; on a sequence it pushes one item per
    element, each bound to its own position.
   */
  lemma WildcardFansOut(ext: Externals, tokens: Pointer, value: Value, doc: Value, ctx: Ctx)
    requires ValidExternals(ext) && ctx.i + 1 < |tokens| && tokens[ctx.i + 1] == Wildcard
    ensures ctx.i + 2 == |tokens| ==> ReplaceStep.Step(ext, tokens, value, doc, ctx) == Halt(WildcardMustNotBeLast)
    ensures ctx.i + 2 < |tokens| && At(doc, ctx.at).Seq? ==>
      var r := ReplaceStep.Step(ext, tokens, value, doc, ctx);
      && r.Next? && r.doc == doc && |r.pushed| == |At(doc, ctx.at).items|
      && forall j :: 0 <= j < |r.pushed| ==> r.pushed[j] == Ctx(ctx.at + [IndexStep(j)], ctx.at + [IndexStep(j)], ctx.i + 1)
  {
  }

  /**
    A token that needs a sequence on something else, or a key on something
    that is not a mapping, fails with a type mismatch at the current path;
    a root token after the start is unexpected.
   */
  lemma MismatchesFail(ext: Externals, tokens: Pointer, value: Value, doc: Value, ctx: Ctx)
    requires ValidExternals(ext) && ctx.i + 1 < |tokens|
    ensures var t := tokens[ctx.i + 1];
      var obj := At(doc, ctx.at);
      var path := Prefix(tokens, ctx.i + 2);
      var r := ReplaceStep.Step(ext, tokens, value, doc, ctx);
      && ((t.Index? || t.AfterLast? || t.Matching? || (t.Wildcard? && ctx.i + 2 < |tokens|)) && !obj.Seq? ==>
            r == Halt(NotASequence(path, obj)))
      && (t.Key? && !obj.Map? ==> r == Halt(NotAMapping(path, obj)))
      && (t.Root? ==> r == Halt(UnexpectedToken(Root, path)))
  {
  }

  /**
    An item reached through a matching index reuses its parent's
    write-back. That is harmless exactly when the item is a mapping: then
    what it does does not depend on its write-back at all.
   */
  lemma MappingIgnoresWriteBack(ext: Externals, tokens: Pointer, value: Value, doc: Value, at: Location, w1: Location, w2: Location, i: nat)
    requires ValidExternals(ext) && At(doc, at).Map?
    ensures ReplaceStep.Step(ext, tokens, value, doc, Ctx(at, w1, i)) == ReplaceStep.Step(ext, tokens, value, doc, Ctx(at, w2, i))
  {
  }

  /**
    The container at the end of a plain pointer after the replace: the
    value under the key, or in place of the element at the index.
   */
  function Put(container: Value, t: Token, v: Value): Value
    requires PlainToken(t)
  {
    if t.Key? && container.Map? then Map(container.entries[Str(t.key) := v])
    else if t.Index? && container.Seq? && t.index < |container.items| then Seq(container.items[t.index := v])
    else container
  }

  /**
    The last token of a plain pointer can take the value: a key of a
    mapping (present, or absent and optional), or an index inside a
    sequence.
   */
  predicate Writable(container: Value, t: Token)
  {
    || (t.Key? && container.Map? && (Str(t.key) in container.entries || t.optional))
    || (t.Index? && container.Seq? && 0 <= t.index < |container.items|)
  }

  /** A plain token before the end, on a container that holds its child, descends into that child. */
  lemma PlainStepDescends(ext: Externals, tokens: Pointer, value: Value, doc: Value, at: Location, i: nat)
    requires ValidExternals(ext) && i + 2 < |tokens| && PlainToken(tokens[i + 1])
    requires Reaches(At(doc, at), [StepOf(tokens[i + 1])])
    ensures ReplaceStep.Step(ext, tokens, value, doc, Ctx(at, at, i)) ==
      Next(doc, [Child(at, StepOf(tokens[i + 1]), i + 1)])
  {
  }

  /** A plain token at the end, on a container that can take the value, writes it there. */
  lemma PlainStepEnds(ext: Externals, tokens: Pointer, value: Value, doc: Value, at: Location, i: nat)
    requires ValidExternals(ext) && i + 2 == |tokens| && PlainToken(tokens[i + 1])
    requires ext.cloneValue(value).Cloned? && Writable(At(doc, at), tokens[i + 1])
    ensures ReplaceStep.Step(ext, tokens, value, doc, Ctx(at, at, i)) ==
      Next(SetAt(doc, at, Put(At(doc, at), tokens[i + 1], value)), [])
  {
  }

  /** Replace along a plain pointer whose containers exist, from the item after `i` tokens. */
  lemma {:induction false} PlainStepsFrom(ext: Externals, tokens: Pointer, value: Value, doc: Value, i: nat)
    requires ValidExternals(ext) && PlainSteps(tokens) && |tokens| >= 2 && i + 2 <= |tokens|
    requires ext.cloneValue(value).Cloned?
    requires Reaches(doc, StepParent(tokens)) && Writable(At(doc, StepParent(tokens)), tokens[|tokens| - 1])
    ensures var at := StepPath(tokens, i + 1);
      Drain(ext, tokens, Replacing(value), doc, [Ctx(at, at, i)]).outcome ==
        Ok(SetAt(doc, StepParent(tokens), Put(At(doc, StepParent(tokens)), tokens[|tokens| - 1], value)))
    decreases |tokens| - i
  {
    var at := StepPath(tokens, i + 1);
    var ctx := Ctx(at, at, i);
    PopStep(ext, tokens, Replacing(value), doc, [ctx]);
    if i + 2 == |tokens| {
      PlainStepEnds(ext, tokens, value, doc, at, i);
      var none: seq<Ctx> := [];
      assert none + none == none;
    } else {
      var parent := StepParent(tokens);
      var step := StepOf(tokens[i + 1]);
      assert parent[..i] == at;
      assert parent[..i + 1] == at + [step];
      ReachesPrefix(doc, parent, i);
      ReachesPrefix(doc, parent, i + 1);
      AtExtend(doc, at, [step]);
      PlainStepDescends(ext, tokens, value, doc, at, i);
      assert at + [step] == StepPath(tokens, i + 2);
      assert [] + [Child(at, step, i + 1)] == [Ctx(StepPath(tokens, i + 2), StepPath(tokens, i + 2), i + 1)];
      PlainStepsFrom(ext, tokens, value, doc, i + 1);
    }
  }

  /**
    Replace along a plain pointer whose containers exist writes the value
    at its end: reading the pointer back gives the value, the container
    keeps its other keys or elements, and every slot off the path is
    unchanged.
   */
  lemma ReplaceThenFind(ext: Externals, tokens: Pointer, value: Value, doc: Value)
    requires ValidExternals(ext) && PlainSteps(tokens) && |tokens| >= 2
    requires ext.cloneValue(value).Cloned?
    requires Reaches(doc, StepParent(tokens)) && Writable(At(doc, StepParent(tokens)), tokens[|tokens| - 1])
    ensures var r := Replace(ext, tokens, value, doc);
      var parent := StepParent(tokens);
      var t := tokens[|tokens| - 1];
      && r == Ok(SetAt(doc, parent, Put(At(doc, parent), t, value)))
      && Reaches(r.value, StepTarget(tokens)) && At(r.value, StepTarget(tokens)) == value
      && (t.Key? ==> At(r.value, parent) == Map(At(doc, parent).entries[Str(t.key) := value]))
      && (t.Index? ==> At(r.value, parent) == Seq(At(doc, parent).items[t.index := value]))
      && forall other :: Diverge(parent, other) ==> At(r.value, other) == At(doc, other)
  {
    PlainStepsFrom(ext, tokens, value, doc, 0);
    var parent := StepParent(tokens);
    var t := tokens[|tokens| - 1];
    var written := Put(At(doc, parent), t, value);
    var result := SetAt(doc, parent, written);
    AtSetAt(doc, parent, written);
    assert StepTarget(tokens) == parent + [StepOf(t)];
    AtExtend(result, parent, [StepOf(t)]);
    forall other | Diverge(parent, other)
      ensures At(result, other) == At(doc, other)
    {
      SetAtFrame(doc, parent, other, written);
    }
  }
}
