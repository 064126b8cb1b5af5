/**
  `MoveOp.Apply`: find the value at `from`, replace the value at `path`
  with it, then remove `from`; the first failure is the result.
 */
module MoveOp {
  import opened Values
  import opened Tokens
  import opened Traversal
  import opened Worklist
  import ReplaceOp
  import RemoveOp
  import ReplaceLaws
  import RemoveLaws

  /** Finding a value by pointer; its code is not part of this model. */
  type Finder = (Pointer, Value) -> Result<Value>

  /** A pointer of keys that must all exist. */
  predicate RequiredKeys(tokens: Pointer)
  {
    PlainKeys(tokens) && forall j :: 1 <= j < |tokens| ==> !tokens[j].optional
  }

  /**
    Reference lookup along the keys after token `i`, starting from `v`:
    a missing key reports the keys that are there, a non-mapping is a
    type error.
   */
  function LookupFrom(tokens: Pointer, v: Value, i: nat): (r: Result<Value>)
    requires PlainKeys(tokens) && i < |tokens|
    ensures r.Err? ==> r.error.MissingMapKey? || r.error.NotAMapping?
    decreases |tokens| - i
  {
    if i + 1 == |tokens| then Ok(v)
    else
      var k := tokens[i + 1].key;
      if !v.Map? then Err(NotAMapping(Prefix(tokens, i + 2), v))
      else if Str(k) !in v.entries then Err(MissingMapKey(k, Prefix(tokens, i + 2), v.entries))
      else LookupFrom(tokens, v.entries[Str(k)], i + 1)
  }

  /** What is assumed of the finder: on pointers of required keys it is the reference lookup. */
  ghost predicate FindsRequiredKeys(find: Finder)
  {
    forall p: Pointer, doc: Value :: RequiredKeys(p) ==> find(p, doc) == LookupFrom(p, doc, 0)
  }

  /** The reference lookup succeeds exactly on the locations the document has, with what is there. */
  lemma {:induction false} LookupFromAgrees(tokens: Pointer, v: Value, i: nat)
    requires PlainKeys(tokens) && i < |tokens|
    ensures var rest := StepTarget(tokens)[i..];
      && (LookupFrom(tokens, v, i).Ok? <==> Reaches(v, rest))
      && (Reaches(v, rest) ==> LookupFrom(tokens, v, i).value == At(v, rest))
    decreases |tokens| - i
  {
    var rest := StepTarget(tokens)[i..];
    if i + 1 < |tokens| {
      var k := Str(tokens[i + 1].key);
      assert rest[0] == KeyStep(k);
      assert rest[1..] == StepTarget(tokens)[i + 1..];
      if v.Map? && k in v.entries {
        LookupFromAgrees(tokens, v.entries[k], i + 1);
      }
    }
  }

  /** The finder on required keys: found exactly when the location exists, and then its value. */
  lemma FindAgrees(find: Finder, p: Pointer, doc: Value)
    requires FindsRequiredKeys(find) && RequiredKeys(p)
    ensures find(p, doc).Ok? <==> Reaches(doc, StepTarget(p))
    ensures find(p, doc).Ok? ==> find(p, doc).value == At(doc, StepTarget(p))
  {
    LookupFromAgrees(p, doc, 0);
    assert StepTarget(p)[0..] == StepTarget(p);
  }

  /** The move, as the composition of find, replace and remove. */
  function Move(ext: Externals, find: Finder, path: Pointer, from: Pointer, doc: Value): Result<Value>
    requires ValidExternals(ext)
  {
    match find(from, doc)
    case Err(e) => Err(e)
    case Ok(v) =>
      match Replace(ext, path, v, doc)
      case Err(e) => Err(e)
      case Ok(d) => Remove(ext, from, d)
  }

  method Apply(ext: Externals, find: Finder, path: Pointer, from: Pointer, doc: Value) returns (r: Result<Value>)
    requires ValidExternals(ext)
    ensures r == Move(ext, find, path, from, doc)
  {
    var found := find(from, doc);
    if found.Err? {
      return Err(found.error);
    }
    var replaced := ReplaceOp.Apply(ext, path, found.value, doc);
    if replaced.Err? {
      return Err(replaced.error);
    }
    r := RemoveOp.Apply(ext, from, replaced.value);
  }

  /** The first failing stage decides the error, unchanged; later stages do not run. */
  lemma FirstErrorWins(ext: Externals, find: Finder, path: Pointer, from: Pointer, doc: Value)
    requires ValidExternals(ext)
    ensures find(from, doc).Err? ==> Move(ext, find, path, from, doc) == Err(find(from, doc).error)
    ensures find(from, doc).Ok? && Replace(ext, path, find(from, doc).value, doc).Err? ==>
      Move(ext, find, path, from, doc) == Err(Replace(ext, path, find(from, doc).value, doc).error)
    ensures find(from, doc).Ok? && Replace(ext, path, find(from, doc).value, doc).Ok? ==>
      Move(ext, find, path, from, doc) == Remove(ext, from, Replace(ext, path, find(from, doc).value, doc).value)
  {
  }

  /** Moving from the root always fails once the find and the replace have succeeded. */
  lemma FromRootRefused(ext: Externals, find: Finder, path: Pointer, from: Pointer, doc: Value)
    requires ValidExternals(ext) && FindsRequiredKeys(find) && |from| == 1
    requires Replace(ext, path, doc, doc).Ok?
    ensures Move(ext, find, path, from, doc) == Err(CannotRemoveWholeDocument)
  {
    assert RequiredKeys(from);
  }

  /** A missing `from` fails before anything is written, naming the key and the keys present. */
  lemma MissingFromFails(ext: Externals, find: Finder, path: Pointer, from: Pointer, doc: Value)
    requires ValidExternals(ext) && FindsRequiredKeys(find) && RequiredKeys(from)
    requires !Reaches(doc, StepTarget(from))
    ensures var r := Move(ext, find, path, from, doc);
      r.Err? && (r.error.MissingMapKey? || r.error.NotAMapping?)
  {
    FindAgrees(find, from, doc);
  }

  /**
    Moving a key to a sibling key of the same mapping (present, or absent
    and optional) renames it: the value now sits under the new key, the
    old key is gone, nothing else changes.
   */
  lemma MoveRenamesKey(ext: Externals, find: Finder, path: Pointer, from: Pointer, doc: Value)
    requires ValidExternals(ext) && FindsRequiredKeys(find)
    requires RequiredKeys(from) && PlainKeys(path) && |from| == |path| >= 2
    requires from[..|from| - 1] == path[..|path| - 1] && LastKey(from) != LastKey(path)
    requires Reaches(doc, StepParent(from)) && At(doc, StepParent(from)).Map?
    requires LastKey(from) in At(doc, StepParent(from)).entries
    requires LastKey(path) in At(doc, StepParent(from)).entries || path[|path| - 1].optional
    requires ext.cloneValue(At(doc, StepParent(from)).entries[LastKey(from)]).Cloned?
    ensures var m := At(doc, StepParent(from)).entries;
      Move(ext, find, path, from, doc) ==
        Ok(SetAt(doc, StepParent(from), Map(m[LastKey(path) := m[LastKey(from)]] - {LastKey(from)})))
  {
    var parent := StepParent(from);
    var m := At(doc, parent).entries;
    var k1 := LastKey(from);
    var k2 := LastKey(path);
    var v := m[k1];
    assert StepParent(path) == parent by {
      forall j | 0 <= j < |parent|
        ensures StepParent(path)[j] == parent[j]
      {
        assert from[..|from| - 1][j + 1] == path[..|path| - 1][j + 1];
      }
    }
    assert StepTarget(from) == parent + [KeyStep(k1)];
    AtExtend(doc, parent, [KeyStep(k1)]);
    FindAgrees(find, from, doc);
    ReplaceLaws.ReplaceThenFind(ext, path, v, doc);
    var grown := Map(m[k2 := v]);
    var d1 := SetAt(doc, parent, grown);
    AtSetAt(doc, parent, grown);
    AtExtend(d1, parent, [KeyStep(k1)]);
    RemoveLaws.RemoveThenFind(ext, from, d1);
    SetAtTwice(doc, parent, grown, Map(m[k2 := v] - {k1}));
  }
}
