# go-patch: replace, remove and move, and the pointer text

A Dafny model of the patch engine of go-patch. The engine applies
structural edits to a nested document made of mappings with scalar keys,
sequences and scalars. A pointer addresses the edit: a list of tokens that
starts with the root and continues with keys (`/name`, optionally marked
`?`), indices (`/0`, `/-2`), the after-last index (`/-`), matching indices
(`/name=val`, which select the one element that is a mapping with that
entry) and wildcards (`*`, every element).

- **Documents** (`values.dfy`). `Value` is `Atom | Seq | Map`. A `Location`
  is a list of key and index steps. `At`, `Reaches` and `SetAt` read,
  test and rebind the slot at a location. The lemmas say that a write can
  be read back, that writes elsewhere leave a slot alone, and that two
  writes to one slot keep only the second.
- **Tokens and errors** (`tokens.dfy`). `Pointer` is a non-empty token
  list whose first token is the root. `NewPointer` panics on anything
  else, so in the model this is a type constraint.
- **The traversal** (`traversal.dfy`, `replace_step.dfy`, `remove_step.dfy`,
  `worklist.dfy`, `replace_op.dfy`, `remove_op.dfy`).
  - `ReplaceOp.Apply` and `RemoveOp.Apply` are the source's stack loops.
    They are imperative methods over a `seq` used as a LIFO stack of work
    items (`Ctx`). A work item replaces the source's `PrevUpdate` closure:
    the closure becomes an explicit write-back location.
  - Each method is proved equal to a recursive definition: `Drain` visits
    the top item depth-first and then the rest.
  - `ReplaceStep.Step` and `RemoveStep.Step` are the loop bodies, as
    functions.
  - The laws files state, token kind by token kind, what one popped item
    does. For whole pointers made of keys and plain indices they state
    what the operation does.
- **Move** (`move_op.dfy`, `move_cases.dfy`). Move is find, then replace,
  then remove. The moves of the test file are proved on the documents
  written there.
- **Pointer text** (`pointer_text.dfy`, `pointer_laws.dfy`,
  `pointer_table.dfy`).
  - Parsing and serialising follow section 4 of RFC 6901 for `~0` and
    `~1`, with `~1` decoded before `~0`. They add `-`, integers, `k=v`
    and the `?` marker.
  - Every pointer in the canonical class parses back from its text.
  - Every row of the test table is proved in both directions.

The collaborators whose code is not part of this model are parameters,
each with the contract its call sites rely on:

- `ArrayIndex.Concrete` and `ArrayInsertion.Concrete` (index resolution
  with modifiers), in `Traversal.Externals`;
- `cloneValue`, also in `Traversal.Externals`;
- `FindOp`, as `MoveOp.Finder`.

## Model

| member | source | states |
|---|---|---|
| ReplaceOp.Apply | patch/replace_op.go:24-229 | The stack loop returns exactly `Replace`. A root-only pointer gives the clone of the value. Otherwise the result is the depth-first, last-pushed-first drain of the work items, and the first error stops it. |
| ReplaceOp.Dispatch | patch/replace_op.go:51-225 | The switch on the next token, including the wildcard push loop, computes `ReplaceStep.Step`. |
| ReplaceOp.DispatchMatching | patch/replace_op.go:100-159 | The `k=v` case, with its match scan, computes `ReplaceStep.Step`. |
| ReplaceOp.DispatchKey | patch/replace_op.go:161-203 | The key case, including the container created for an absent optional key, computes `ReplaceStep.Step`. |
| RemoveOp.Apply | patch/remove_op.go:11-156 | The stack loop returns exactly `Remove`. A root-only pointer is refused. Otherwise the result is the drained stack, and the first error stops it. |
| RemoveOp.Dispatch | patch/remove_op.go:33-152 | The switch on the next token computes `RemoveStep.Step`. |
| ReplaceStep.Step | patch/replace_op.go:47-225 | An item pushes children only when a token follows its own, and every child sits exactly one token deeper. |
| RemoveStep.Step | patch/remove_op.go:29-152 | An item pushes children only when a token follows its own, and every child sits exactly one token deeper. |
| RemoveStep.Without | patch/remove_op.go:52-54 | The rebuilt sequence is one shorter. Elements before the index keep their places; elements after it move down by one. |
| Traversal.Update | patch/replace_op.go:67-71 | An overwrite keeps the length and changes only that slot. A splice adds one element there and shifts the later elements up by one. |
| Traversal.MatchingIndices | patch/remove_op.go:70-79 | The selected positions are exactly the elements that are mappings with the string value at the key, in ascending order. |
| Traversal.CollectMatches | patch/replace_op.go:106-115 | The scan loop collects exactly `MatchingIndices`. |
| Traversal.UniqueMatch | patch/remove_op.go:85-89 | When the count is one, that element matches and no other element does. |
| Traversal.Fanout | patch/remove_op.go:142-148 | A wildcard yields one item per element, in element order, each bound to its own index. |
| Traversal.PushBranches | patch/replace_op.go:215-221 | The push loop appends exactly `Fanout` to the stack. |
| Traversal.StepPath | patch/replace_op.go:56-82 | The location named by the first tokens of a pointer made of keys and plain indices, one key or index step per token. |
| Worklist.DrainAppend | patch/replace_op.go:41-44 | Items pushed on top are finished, with everything they push, before the items below them (LIFO). |
| Worklist.PopStep | patch/replace_op.go:41-49 | One loop iteration: popping the top and pushing its children keeps the outcome and takes one pop fewer. A failing item's error becomes the outcome. |
| Values.AtSetAt | patch/replace_op.go:199 | A write-back to an existing slot can be read back, and the slot still exists. |
| Values.SetAtFrame | patch/replace_op.go:78 | A write-back leaves every location off its path unchanged. |
| Values.SetAtTwice | patch/replace_op.go:177 | Writing one slot twice keeps only the second write. |
| ReplaceLaws.ExhaustedItemDropped | patch/replace_op.go:46-49 | An item with no token left is dropped: the document is unchanged and nothing is pushed. |
| ReplaceLaws.RootOnlyReturnsClone | patch/replace_op.go:27-34 | A root-only pointer ignores the document. It returns the clone of the value, or the clone error. |
| ReplaceLaws.KeyAtEnd | patch/replace_op.go:167-177 | A missing non-optional key fails with the missing-key error, and nothing is written. Otherwise exactly that key of the mapping, in place, is set to the value. |
| ReplaceLaws.MissingOptionalKeyCreates | patch/replace_op.go:179-202 | An absent optional key before the end gets `[]` before `-`, `*` or `k=v`, and `{}` before a key. Any other next token fails with the path through that token. The key's item is pushed. |
| ReplaceLaws.AfterLastAppends | patch/replace_op.go:84-98 | At the end, `-` appends the value: one element more, and the earlier elements are unchanged. Anywhere else it is an error. |
| ReplaceLaws.IndexAtEndOverwrites | patch/replace_op.go:56-71 | At the end, an index takes the resolver's insertion point and writes the value there, or fails with the resolver's error. A plain in-range index overwrites exactly that element: same length, other elements unchanged. |
| ReplaceLaws.MatchingIndexCases | patch/replace_op.go:100-159 | With the token optional and no match, the value is appended at the end; before the end, `{k: v}` is appended and descended into with the parent write-back. Any other count than one is the ambiguity error. Without modifiers, a unique match at the end is overwritten with the value, and a unique match before the end is descended into, and that element is a mapping. |
| ReplaceLaws.WildcardFansOut | patch/replace_op.go:205-221 | A last `*` is an error. On a sequence, `*` pushes one item per element, each bound to its own index, and leaves the document unchanged. |
| ReplaceLaws.MismatchesFail | patch/replace_op.go:55-224 | Sequence tokens on a non-sequence and keys on a non-mapping fail with the type error at the current path. A root token mid-path is the unexpected-token error. |
| ReplaceLaws.MappingIgnoresWriteBack | patch/replace_op.go:152-157 | What an item holding a mapping does does not depend on its write-back, so reusing the parent's is harmless. |
| ReplaceLaws.PlainStepDescends | patch/replace_op.go:72-82 | A key or plain index before the end, on a container holding that child, pushes exactly that child and writes nothing. |
| ReplaceLaws.PlainStepEnds | patch/replace_op.go:62-71 | A key or plain index at the end, on a container that can take the value, writes the value into that container and pushes nothing. |
| ReplaceLaws.PlainStepsFrom | patch/replace_op.go:36-82 | Along a pointer of keys and plain indices whose containers exist, draining from any depth writes the value into the last container. |
| ReplaceLaws.ReplaceThenFind | patch/replace_op.go:36-82 | A replace along a pointer of keys and plain indices writes the value at its end. The pointer then resolves to the value. The container keeps its other keys or elements, and every location off the path is unchanged. |
| RemoveLaws.RootOnlyRefused | patch/remove_op.go:14-16 | A root-only pointer fails with the cannot-remove-entire-document error. |
| RemoveLaws.IndexAtEndDrops | patch/remove_op.go:38-55 | At the end, an index fails with the resolver's error, or drops the resolved element `n`. The sequence becomes `s[..n] + s[n+1..]`, which is the old multiset less that one element. A plain in-range index resolves to itself. |
| RemoveLaws.KeyAtEndDeletes | patch/remove_op.go:122-123 | A present key at the end is deleted from its mapping, in place, and all other keys stay. |
| RemoveLaws.AbsentKey | patch/remove_op.go:107-120 | A key on a non-mapping is the type error. An absent optional key ends the branch with no change. An absent required key is the missing-key error, listing the keys present. |
| RemoveLaws.MatchingIndexCases | patch/remove_op.go:64-98 | With the token optional and no match, the branch is skipped. Any other count than one is the ambiguity error. A unique match at the end is spliced out. |
| RemoveLaws.MatchedChildIsMapping | patch/remove_op.go:99-105 | A unique match before the end is descended into with the parent write-back. The element is a mapping, so its step does not depend on that write-back. |
| RemoveLaws.UnremovableTokens | patch/remove_op.go:132-151 | `-` and a root token are the unexpected-token error. A last `*` is an error. |
| RemoveLaws.WildcardFansOut | patch/remove_op.go:132-148 | On a sequence, `*` before the end pushes one item per element, each bound to its own index, and leaves the document unchanged. |
| RemoveLaws.MismatchesFail | patch/remove_op.go:38-140 | An index, `k=v` or `*` before the end, on something that is not a sequence, fails with the type error at the current path. |
| RemoveLaws.PlainStepDescends | patch/remove_op.go:56-60 | A key or plain index before the end, on a container holding that child, pushes exactly that child and writes nothing. |
| RemoveLaws.PlainStepEnds | patch/remove_op.go:51-55 | A key or plain index at the end, on a container holding that child, takes that child out of the container and pushes nothing. |
| RemoveLaws.PlainStepsFrom | patch/remove_op.go:21-130 | Along a pointer of keys and plain indices whose every step exists, draining from any depth takes the last child out of its container. |
| RemoveLaws.RemoveThenFind | patch/remove_op.go:21-130 | A remove along a pointer of keys and plain indices takes its last child out. A removed key no longer resolves, and the mapping keeps exactly its other keys with their values. A removed element leaves the others in order. Every location off the path is unchanged. |
| MoveOp.Apply | patch/move_op.go:8-25 | The method returns exactly `Move`: find `from`, replace at `path` with what was found, then remove `from`. |
| MoveOp.FirstErrorWins | patch/move_op.go:9-22 | The first failing stage's error is the result, unchanged. When both find and replace succeed, the result is the remove applied to the replaced document. |
| MoveOp.LookupFrom | patch/move_op.go:9-12 | The reference lookup fails only with the missing-key or the type error. |
| MoveOp.LookupFromAgrees | patch/move_op.go:9-12 | The reference lookup succeeds exactly when the location exists, and then yields what is there. |
| MoveOp.FindAgrees | patch/move_op.go:9-12 | On pointers of required keys, the finder succeeds exactly on existing locations, with their value. |
| MoveOp.FromRootRefused | patch/move_op_test.go:39-47 | Once find and replace have succeeded, moving from the root fails with the cannot-remove-entire-document error. |
| MoveOp.MissingFromFails | patch/move_op_test.go:17-27 | A missing `from` fails in find, with the missing-key or the type error. |
| MoveOp.MoveRenamesKey | patch/move_op_test.go:49-60 | Moving a key to a sibling key renames it: the value sits under the new key, the old key is gone, nothing else changes. |
| MoveCases.FromEntireDocument | patch/move_op_test.go:11-15 | Root to root on `"a"` fails with the cannot-remove-entire-document error. |
| MoveCases.FromMissing | patch/move_op_test.go:17-27 | `/xyz/new_nested` to `/xyz/new_nested?` fails naming `new_nested`, the path `/xyz/new_nested` and the keys present, `{nested}`. |
| MoveCases.PathNotPermissible | patch/move_op_test.go:29-37 | `/xyz` to `/abc/def/ghi` fails at `/abc` with the keys present, `{xyz}`. |
| MoveCases.FromNotPermissible | patch/move_op_test.go:39-47 | Root to `/abc?` fails with the cannot-remove-entire-document error. |
| MoveCases.MovesWithinMap | patch/move_op_test.go:49-60 | `/xyz` to `/abc?` gives `{abc: xyz}`. |
| MoveCases.MovesIntoMap | patch/move_op_test.go:62-79 | `/xyz` to `/abc/xyz?` gives `{abc: {def: def, xyz: xyz}}`. |
| MoveCases.MovesOutOfMap | patch/move_op_test.go:81-97 | `/abc/def` to `/def?` gives `{abc: {}, def: def, xyz: xyz}`. |
| PointerText.Escape | patch/pointer_test.go:71-74 | The escaped text never contains `/`. |
| PointerText.Atoi | patch/pointer_test.go:36-38 | An accepted integer fits in 64 bits, and its text is digits with at most a leading sign. |
| PointerText.NatToString | patch/pointer_test.go:36-37 | The decimal text of a natural number is all digits and denotes that number. |
| PointerText.FirstEquals | patch/pointer_test.go:52-56 | The position is an `=` with no `=` before it. |
| PointerText.ParseSegments | patch/pointer_test.go:40-42 | One token per segment. No root or wildcard is produced, and `-` becomes the after-last index only in the last segment. |
| PointerText.Parse | patch/pointer_test.go:98-103 | Parsing fails exactly on a non-empty text that does not start with `/`, with the "Expected to start with '/'" error. |
| PointerText.Render | patch/pointer_test.go:28-33 | One segment per token, none containing `/`. |
| PointerLaws.UnescapeEscape | patch/pointer_test.go:71-74 | Unescaping undoes escaping, even with text following, so `~01` reads back as `~1`. |
| PointerLaws.AtoiIntToString | patch/pointer_test.go:36-38 | Every 64-bit integer's decimal text is read back as that integer. |
| PointerLaws.SplitJoin | patch/pointer_test.go:21-27 | Splitting pieces joined by `/` gives the pieces back, empty ones included. |
| PointerLaws.SegmentRoundTrip | patch/pointer_test.go:17-82 | A canonical token's text parses back to it, and the optional flag carries on as the serialiser assumed. |
| PointerLaws.SegmentsRoundTrip | patch/pointer_test.go:17-82 | The segments of a canonical token list parse back to that list. |
| PointerLaws.ParseString | patch/pointer_test.go:106-132 | For every canonical pointer, parsing its text gives the pointer back, so the text is also a fixed point of parse-then-serialise. |
| PointerTable.WholeDocument | patch/pointer_test.go:18 | `""` is `[Root]` both ways, and `"abc"` fails with "Expected to start with '/'". |
| PointerTable.EmptyKey | patch/pointer_test.go:21 | `/` is the empty key, both ways. |
| PointerTable.BlankKey | patch/pointer_test.go:22 | `/ ` is the key `" "`, both ways. |
| PointerTable.SingleKey | patch/pointer_test.go:25 | `/key`, both ways. |
| PointerTable.TrailingEmptyKey | patch/pointer_test.go:26 | `/key/` ends with the empty key, both ways. |
| PointerTable.TwoKeys | patch/pointer_test.go:27 | `/key/key2`, both ways. |
| PointerTable.OptionalCarriesOn | patch/pointer_test.go:28-33 | `/key?/key2/key3` makes all three keys optional, both ways. |
| PointerTable.IndexZero | patch/pointer_test.go:36 | `/0` is index 0, both ways. |
| PointerTable.LargeIndex | patch/pointer_test.go:37 | `/1000001` is index 1000001, both ways. |
| PointerTable.NegativeIndex | patch/pointer_test.go:38 | `/-2` is index -2, both ways. |
| PointerTable.AfterLastAlone | patch/pointer_test.go:40 | `/-` is the after-last index, both ways. |
| PointerTable.AfterLastUnderKey | patch/pointer_test.go:41 | `/ary/-`, both ways. |
| PointerTable.DashKeyNotLast | patch/pointer_test.go:42 | `/-/key` starts with the key `-`, both ways. |
| PointerTable.MatchingKeyValue | patch/pointer_test.go:45 | `/name=val` is a matching index, both ways. |
| PointerTable.OptionalMatching | patch/pointer_test.go:46 | `/name=val?` is an optional matching index, both ways. |
| PointerTable.OptionalMatchingCarriesOn | patch/pointer_test.go:47-51 | `/name=val?/name2=val` makes both optional, both ways. |
| PointerTable.EmptyMatching | patch/pointer_test.go:52 | `/=` has an empty key and value, both ways. |
| PointerTable.EmptyOptionalMatching | patch/pointer_test.go:53 | `/=?`, both ways. |
| PointerTable.EmptyMatchingValue | patch/pointer_test.go:54 | `/name=`, both ways. |
| PointerTable.EmptyMatchingKey | patch/pointer_test.go:55 | `/=val`, both ways. |
| PointerTable.EqualsInMatchingValue | patch/pointer_test.go:56 | `/==` has key `""` and value `"="`, both ways. |
| PointerTable.OptionalKeyThenMatching | patch/pointer_test.go:59-63 | `/key?/name=val`, both optional, both ways. |
| PointerTable.OptionalMatchingThenKey | patch/pointer_test.go:64-68 | `/name=val?/key`, both optional, both ways. |
| PointerTable.EscapedTilde | patch/pointer_test.go:71 | `/m~0n` is the key `m~n`, both ways. |
| PointerTable.EscapedTildeOne | patch/pointer_test.go:72 | `/a~01b` is the key `a~1b`, both ways. |
| PointerTable.EscapedSlash | patch/pointer_test.go:73 | `/a~1b` is the key `a/b`, both ways. |
| PointerTable.EscapedMatching | patch/pointer_test.go:74 | `/name~0n=val~0n` is the matching index `name~n=val~n`, both ways. |
| PointerTable.PercentKey | patch/pointer_test.go:77 | `/c%d`, both ways. |
| PointerTable.CaretKey | patch/pointer_test.go:78 | `/e^f`, both ways. |
| PointerTable.BarKey | patch/pointer_test.go:79 | `/g\|h`, both ways. |
| PointerTable.BackslashKey | patch/pointer_test.go:80 | `/i\j`, both ways. |
| PointerTable.QuoteKey | patch/pointer_test.go:81 | `/k"l`, both ways. |
| PointerTable.MarkOnLastKey | patch/pointer_test.go:117-121 | `/key/key2?` makes only the last key optional, both ways. |

## Left out

- Cloning: the YAML marshal and unmarshal inside `cloneValue`, and its `recover`, are a foreign library. Cloning is a parameter that either yields the value itself or fails with a reason.
- Failed clones at one call site: where a unique `k=v` match sits at the end of a replace (patch/replace_op.go:139-140), the clone's error is overwritten before it is read. The model writes null there (`ReplaceStep.ClonedOrNull`), so not every clone failure surfaces.
- Index resolution: what `ArrayIndex.Concrete` and `ArrayInsertion.Concrete` compute from modifiers is not part of this model. They are parameters, with the bounds their call sites rely on, and plain in-range indices resolve to themselves.
- Modifier syntax in pointer text: it is not part of this model, and parsing never produces modifiers.
- `FindOp`: its code is not part of this model. The finder is a parameter, and is assumed to agree with a reference key lookup on pointers whose keys are all required.
- The parser and `Pointer.String`: their code is not part of this model. Parse and serialise are built to the test table.
- `*` in pointer text is read as a key, because the table has no `*` row. The serialiser writes the wildcard token as `*`.
- PointerLaws.ParseString: the round trip is proved only for canonical pointers, not every token list. Some token lists have no text that parses back to them: `Key("007")` reads back as index 7, and a key that ends in `?` loses the `?`.
- Error messages: the `fmt.Errorf` strings and the found-keys listings are modelled as error kinds carrying their data.
- Aliasing: values are immutable, so the model does not capture in-place mutation visible through aliased Go maps or slices. That includes the partial edits a failing replace or remove leaves behind. An operation yields either the new document or an error.
- Traversal.Fanout: each wildcard branch writes back to its own element, which is what the closures at patch/replace_op.go:215-217 and patch/remove_op.go:142-144 do when every loop iteration binds `idx` afresh (Go 1.22 and later). Under the older loop semantics every closure shares one `idx`, so every branch writes back to the last element; the model does not capture that, and no `go.mod` in the source fixes the toolchain.
- Snapshots: a work item reads its object from the current document when popped. The source captures it when pushed. The two agree because branches are disjoint subtrees, given the per-iteration binding above.
- Floating-point scalars: `Values.Scalar` has null, booleans, integers and strings only. Nothing in the operations inspects a scalar beyond comparing a `k=v` value with a string, so other scalar kinds would not change what they do.
- patch/op_definition_test.go: the declarative operation definitions are not part of this model.
