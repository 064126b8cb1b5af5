/**
  What Replace and Remove share: the work item of the traversal, the
  collaborators they call (index resolution and value cloning), and the
  scan that finds the elements a matching-index token selects.
 */
module Traversal {
  import opened Values
  import opened Tokens

  /**
    A work item (`mutationCtx` in the source). `at` is where the visited
    object lives in the document, so in-place map edits land there;
    `writeBack` is the slot that the item's update closure rebinds; `i` is
    the position of the last consumed token. The two locations differ only
    for items reached through a matching-index token, which reuse their
    parent's write-back.
   */
  datatype Ctx = Ctx(at: Location, writeBack: Location, i: nat)

  /** What one popped item does: fail, or give the new document and the items it pushes. */
  datatype StepResult = Halt(error: Error) | Next(doc: Value, pushed: seq<Ctx>)

  /** An insertion point from the insertion resolver: overwrite at `pos`, or splice in before `pos`. */
  datatype Slot = Slot(pos: nat, insert: bool)

  /** The result of cloning a replacement value. */
  datatype Cloned = Cloned(copy: Value) | CloneError(reason: string)

  /**
    The collaborators the traversal calls: lookup resolution of an index
    (`ArrayIndex.Concrete`), insertion resolution (`ArrayInsertion.Concrete`)
    and the deep copy of the replacement value (`cloneValue`). Each takes the
    requested index, its modifiers, the sequence and the path for its error.
   */
  datatype Externals = Externals(
    arrayIndex: (int, seq<Modifier>, seq<Value>, Pointer) -> Result<nat>,
    arrayInsertion: (int, seq<Modifier>, seq<Value>, Pointer) -> Result<Slot>,
    cloneValue: Value -> Cloned)

  /**
    What the call sites rely on: a resolved lookup index is inside the
    sequence, and without modifiers an index already inside it resolves to
    itself; an insertion point overwrites an existing element or splices
    at most one past the end, and without modifiers an index already inside
    the sequence overwrites that element; a clone equals its original.
   */
  ghost predicate ValidExternals(ext: Externals)
  {
    && (forall i, m, s, p :: ext.arrayIndex(i, m, s, p).Ok? ==> ext.arrayIndex(i, m, s, p).value < |s|)
    && (forall i: int, s: seq<Value>, p :: 0 <= i < |s| ==> ext.arrayIndex(i, [], s, p) == Ok(i))
    && (forall i, m, s, p :: ext.arrayInsertion(i, m, s, p).Ok? ==> SlotFits(ext.arrayInsertion(i, m, s, p).value, |s|))
    && (forall i: int, s: seq<Value>, p :: 0 <= i < |s| ==> ext.arrayInsertion(i, [], s, p) == Ok(Slot(i, false)))
    && (forall v :: ext.cloneValue(v).Cloned? ==> ext.cloneValue(v).copy == v)
  }

  predicate SlotFits(slot: Slot, len: nat)
  {
    if slot.insert then slot.pos <= len else slot.pos < len
  }

  /** The sequence after writing `v` at an insertion point. */
  function Update(slot: Slot, s: seq<Value>, v: Value): (r: seq<Value>)
    requires SlotFits(slot, |s|)
    ensures slot.insert ==> |r| == |s| + 1 && r[slot.pos] == v && r[..slot.pos] == s[..slot.pos] && r[slot.pos + 1..] == s[slot.pos..]
    ensures !slot.insert ==> |r| == |s| && r[slot.pos] == v && forall j :: 0 <= j < |s| && j != slot.pos ==> r[j] == s[j]
  {
    if slot.insert then s[..slot.pos] + [v] + s[slot.pos..] else s[slot.pos := v]
  }

  /** An element matches `key=value` when it is a mapping whose value at `key` is that string. */
  predicate IsMatch(item: Value, key: string, value: string)
  {
    item.Map? && Str(key) in item.entries && item.entries[Str(key)] == Atom(Str(value))
  }

  /** The positions of the matching elements, in ascending order. */
  function MatchingIndices(s: seq<Value>, key: string, value: string): (r: seq<nat>)
    ensures forall j :: 0 <= j < |r| ==> r[j] < |s| && IsMatch(s[r[j]], key, value)
    ensures forall j :: 0 <= j < |s| && IsMatch(s[j], key, value) ==> j in r
    ensures forall a, b :: 0 <= a < b < |r| ==> r[a] < r[b]
  {
    if s == [] then []
    else
      var front := MatchingIndices(s[..|s| - 1], key, value);
      if IsMatch(s[|s| - 1], key, value) then front + [|s| - 1] else front
  }

  /** A single match is the only element of the sequence that matches. */
  lemma UniqueMatch(s: seq<Value>, key: string, value: string)
    requires |MatchingIndices(s, key, value)| == 1
    ensures var idx := MatchingIndices(s, key, value)[0];
      && IsMatch(s[idx], key, value)
      && forall j :: 0 <= j < |s| && j != idx ==> !IsMatch(s[j], key, value)
  {
    var idxs := MatchingIndices(s, key, value);
    assert idxs == [idxs[0]];
  }

  /** The items a wildcard pushes: one per element, each bound to its own position. */
  function Fanout(at: Location, i: nat, n: nat): (r: seq<Ctx>)
    ensures |r| == n
    ensures forall j :: 0 <= j < n ==> r[j] == Ctx(at + [IndexStep(j)], at + [IndexStep(j)], i)
  {
    if n == 0 then [] else Fanout(at, i, n - 1) + [Ctx(at + [IndexStep(n - 1)], at + [IndexStep(n - 1)], i)]
  }

  /** The child item for a key or an index: it writes back to the slot it lives in. */
  function Child(at: Location, step: Step, i: nat): Ctx
  {
    Ctx(at + [step], at + [step], i)
  }

  /** Only items whose next token exists push anything, and what they push is one token deeper. */
  predicate Deeper(tokens: Pointer, ctx: Ctx, r: StepResult)
  {
    r.Next? && r.pushed != [] ==>
      ctx.i + 2 < |tokens| && forall k :: k in r.pushed ==> k.i == ctx.i + 1
  }

  /** The pointer made of the first `n` tokens. */
  function Prefix(tokens: Pointer, n: nat): Pointer
    requires 1 <= n <= |tokens|
  {
    tokens[..n]
  }

  /** The scan of `range typedObj` that collects the matching positions. */
  method CollectMatches(items: seq<Value>, key: string, value: string) returns (idxs: seq<nat>)
    ensures idxs == MatchingIndices(items, key, value)
  {
    idxs := [];
    for j := 0 to |items|
      invariant idxs == MatchingIndices(items[..j], key, value)
    {
      assert items[..j + 1][..j] == items[..j];
      var item := items[j];
      if item.Map? && Str(key) in item.entries && item.entries[Str(key)] == Atom(Str(value)) {
        idxs := idxs + [j];
      }
    }
    assert items[..|items|] == items;
  }

  /** The wildcard loop: one pushed item per element, in element order. */
  method PushBranches(stack: seq<Ctx>, at: Location, i: nat, n: nat) returns (pushed: seq<Ctx>)
    ensures pushed == stack + Fanout(at, i, n)
  {
    pushed := stack;
    for j := 0 to n
      invariant pushed == stack + Fanout(at, i, j)
    {
      pushed := pushed + [Ctx(at + [IndexStep(j)], at + [IndexStep(j)], i)];
    }
  }

  /** Every token after the root is a key token. */
  predicate PlainKeys(tokens: Pointer)
  {
    forall j :: 1 <= j < |tokens| ==> tokens[j].Key?
  }

  /** A token that names one child directly: a key, or an index without modifiers that is not negative. */
  predicate PlainToken(t: Token)
  {
    t.Key? || (t.Index? && t.index >= 0 && t.modifiers == [])
  }

  /** Every token after the root names one child directly. */
  predicate PlainSteps(tokens: Pointer)
  {
    forall j :: 1 <= j < |tokens| ==> PlainToken(tokens[j])
  }

  /** The child a plain token names. */
  function StepOf(t: Token): Step
    requires PlainToken(t)
  {
    if t.Key? then KeyStep(Str(t.key)) else IndexStep(t.index)
  }

  /** The location named by the first `n` tokens of a plain pointer. */
  function StepPath(tokens: Pointer, n: nat): (loc: Location)
    requires PlainSteps(tokens) && 1 <= n <= |tokens|
    ensures |loc| == n - 1
    ensures forall j :: 0 <= j < n - 1 ==> loc[j] == StepOf(tokens[j + 1])
  {
    if n == 1 then [] else StepPath(tokens, n - 1) + [StepOf(tokens[n - 1])]
  }

  /** The location a plain pointer names. */
  function StepTarget(tokens: Pointer): Location
    requires PlainSteps(tokens)
  {
    StepPath(tokens, |tokens|)
  }

  /** The container holding the last child a plain pointer names. */
  function StepParent(tokens: Pointer): Location
    requires PlainSteps(tokens) && |tokens| >= 2
  {
    StepPath(tokens, |tokens| - 1)
  }

  /** The last key of a pointer that ends in a key. */
  function LastKey(tokens: Pointer): Scalar
    requires |tokens| >= 2 && tokens[|tokens| - 1].Key?
  {
    Str(tokens[|tokens| - 1].key)
  }
}
