/**
  The stack discipline of `ReplaceOp.Apply` and `RemoveOp.Apply` as a
  recursive definition. Popping the top item and pushing what it yields
  means the pushed items, and everything they push in turn, are finished
  before anything below them: so draining a stack is visiting its top item
  depth-first and then draining the rest. `Drain` is that definition, and
  the lemmas here say it is exactly one pop at a time.
 */
module Worklist {
  import opened Values
  import opened Tokens
  import opened Traversal
  import ReplaceStep
  import RemoveStep

  datatype Op = Replacing(value: Value) | Removing

  function Step(ext: Externals, tokens: Pointer, op: Op, doc: Value, ctx: Ctx): (r: StepResult)
    requires ValidExternals(ext)
    ensures Deeper(tokens, ctx, r)
  {
    match op
    case Replacing(v) => ReplaceStep.Step(ext, tokens, v, doc, ctx)
    case Removing => RemoveStep.Step(ext, tokens, doc, ctx)
  }

  /** The outcome of draining, with the number of items popped on the way. */
  datatype Run = Run(outcome: Result<Value>, pops: nat)

  /** How many tokens are left to consume from position `i`. */
  function Height(tokens: Pointer, i: nat): nat
  {
    if i < |tokens| then |tokens| - i else 0
  }

  function MaxHeight(tokens: Pointer, stack: seq<Ctx>): (h: nat)
    ensures forall k :: k in stack ==> Height(tokens, k.i) <= h
  {
    if stack == [] then 0
    else
      var top := Height(tokens, stack[|stack| - 1].i);
      var below := MaxHeight(tokens, stack[..|stack| - 1]);
      assert forall k :: k in stack ==> k in stack[..|stack| - 1] || k == stack[|stack| - 1];
      if top < below then below else top
  }

  lemma MaxHeightBelow(tokens: Pointer, stack: seq<Ctx>, i: nat)
    requires forall k :: k in stack ==> k.i == i
    ensures MaxHeight(tokens, stack) <= Height(tokens, i)
  {
    if stack != [] {
      assert forall k :: k in stack[..|stack| - 1] ==> k in stack;
      MaxHeightBelow(tokens, stack[..|stack| - 1], i);
    }
  }

  lemma MaxHeightFront(tokens: Pointer, stack: seq<Ctx>)
    requires stack != []
    ensures MaxHeight(tokens, stack[..|stack| - 1]) <= MaxHeight(tokens, stack)
  {
  }

  /** Process one item, then everything it pushed. */
  function Visit(ext: Externals, tokens: Pointer, op: Op, doc: Value, ctx: Ctx): Run
    requires ValidExternals(ext)
    decreases Height(tokens, ctx.i), 1, 0
  {
    match Step(ext, tokens, op, doc, ctx)
    case Halt(e) => Run(Err(e), 1)
    case Next(d, pushed) =>
      if pushed == [] then Run(Ok(d), 1)
      else
        MaxHeightBelow(tokens, pushed, ctx.i + 1);
        var r := Drain(ext, tokens, op, d, pushed);
        Run(r.outcome, r.pops + 1)
  }

  /** Process a stack: its top item first (with all it pushes), then the rest; the first error stops it. */
  function Drain(ext: Externals, tokens: Pointer, op: Op, doc: Value, stack: seq<Ctx>): Run
    requires ValidExternals(ext)
    decreases MaxHeight(tokens, stack), |stack| + 1, 0
  {
    if stack == [] then Run(Ok(doc), 0)
    else
      var first := Visit(ext, tokens, op, doc, stack[|stack| - 1]);
      if first.outcome.Err? then first
      else
        MaxHeightFront(tokens, stack);
        Then(ext, tokens, op, first, stack[..|stack| - 1])
  }

  /** Continue a run with a stack, unless it failed. */
  function Then(ext: Externals, tokens: Pointer, op: Op, first: Run, stack: seq<Ctx>): Run
    requires ValidExternals(ext)
    decreases MaxHeight(tokens, stack), |stack| + 1, 1
  {
    if first.outcome.Err? then first
    else
      var rest := Drain(ext, tokens, op, first.outcome.value, stack);
      Run(rest.outcome, first.pops + rest.pops)
  }

  /** The item the traversal starts from: the whole document, no token consumed. */
  function Start(): Ctx
  {
    Ctx([], [], 0)
  }

  /** `ReplaceOp.Apply` on a document: a root-only pointer yields the clone, otherwise the drained stack. */
  function Replace(ext: Externals, path: Pointer, value: Value, doc: Value): Result<Value>
    requires ValidExternals(ext)
  {
    if |path| == 1 then ReplaceStep.CloneOr(ext, value)
    else Drain(ext, path, Replacing(value), doc, [Start()]).outcome
  }

  /** `RemoveOp.Apply` on a document: a root-only pointer is refused, otherwise the drained stack. */
  function Remove(ext: Externals, path: Pointer, doc: Value): Result<Value>
    requires ValidExternals(ext)
  {
    if |path| == 1 then Err(CannotRemoveWholeDocument)
    else Drain(ext, path, Removing, doc, [Start()]).outcome
  }

  /** Draining a stack with more items on top finishes the top items first. */
  lemma {:induction false} DrainAppend(ext: Externals, tokens: Pointer, op: Op, doc: Value, below: seq<Ctx>, above: seq<Ctx>)
    requires ValidExternals(ext)
    ensures Drain(ext, tokens, op, doc, below + above) == Then(ext, tokens, op, Drain(ext, tokens, op, doc, above), below)
    decreases |above|
  {
    if above == [] {
      assert below + above == below;
    } else {
      var s := below + above;
      var front := above[..|above| - 1];
      assert s[|s| - 1] == above[|above| - 1];
      assert s[..|s| - 1] == below + front;
      var first := Visit(ext, tokens, op, doc, above[|above| - 1]);
      if first.outcome.Ok? {
        DrainAppend(ext, tokens, op, first.outcome.value, below, front);
      }
    }
  }

  /**
    One iteration of the source's loop: popping the top item and pushing
    what it yields leaves the same outcome with one pop fewer to go; a
    failing item makes its error the outcome.
   */
  lemma PopStep(ext: Externals, tokens: Pointer, op: Op, doc: Value, stack: seq<Ctx>)
    requires ValidExternals(ext)
    requires stack != []
    ensures Step(ext, tokens, op, doc, stack[|stack| - 1]).Halt? ==>
      Drain(ext, tokens, op, doc, stack).outcome == Err(Step(ext, tokens, op, doc, stack[|stack| - 1]).error)
    ensures Step(ext, tokens, op, doc, stack[|stack| - 1]).Next? ==>
      var next := Step(ext, tokens, op, doc, stack[|stack| - 1]);
      var after := Drain(ext, tokens, op, next.doc, stack[..|stack| - 1] + next.pushed);
      Drain(ext, tokens, op, doc, stack) == Run(after.outcome, after.pops + 1)
  {
    var top := stack[|stack| - 1];
    var front := stack[..|stack| - 1];
    var next := Step(ext, tokens, op, doc, top);
    if next.Next? {
      DrainAppend(ext, tokens, op, next.doc, front, next.pushed);
      if next.pushed == [] {
        assert front + next.pushed == front;
      }
    }
  }
}
