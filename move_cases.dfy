/**
  The move scenarios of patch/move_op_test.go, on the documents and
  pointers written there.
 */
module MoveCases {
  import opened Values
  import opened Tokens
  import opened Traversal
  import opened Worklist
  import opened MoveOp
  import ReplaceLaws
  import RemoveLaws

  function S(s: string): Value { Atom(Str(s)) }

  /** `{xyz: "xyz"}` */
  function Flat(): Value { Map(map[Str("xyz") := S("xyz")]) }

  /** `{abc: {def: "def"}, xyz: "xyz"}` */
  function Nested(): Value
  {
    Map(map[Str("abc") := Map(map[Str("def") := S("def")]), Str("xyz") := S("xyz")])
  }

  /** From the root: the value is found and written, but the root cannot be removed. */
  lemma FromEntireDocument(ext: Externals, find: Finder)
    requires ValidExternals(ext) && FindsRequiredKeys(find) && ext.cloneValue(S("a")).Cloned?
    ensures Move(ext, find, [Root], [Root], S("a")) == Err(CannotRemoveWholeDocument)
  {
    FromRootRefused(ext, find, [Root], [Root], S("a"));
  }

  /** A missing `from` key fails with the keys present at its mapping. */
  lemma FromMissing(ext: Externals, find: Finder)
    requires ValidExternals(ext) && FindsRequiredKeys(find)
    ensures var doc := Map(map[Str("xyz") := Map(map[Str("nested") := S("blah")])]);
      var from: Pointer := [Root, Key("xyz", false), Key("new_nested", false)];
      Move(ext, find, [Root, Key("xyz", false), Key("new_nested", true)], from, doc) ==
        Err(MissingMapKey("new_nested", from, map[Str("nested") := S("blah")]))
  {
    var from: Pointer := [Root, Key("xyz", false), Key("new_nested", false)];
    assert RequiredKeys(from);
    assert Prefix(from, 3) == from;
  }

  /** A destination under a missing, required key fails at that key. */
  lemma PathNotPermissible(ext: Externals, find: Finder)
    requires ValidExternals(ext) && FindsRequiredKeys(find)
    ensures var path: Pointer := [Root, Key("abc", false), Key("def", false), Key("ghi", false)];
      Move(ext, find, path, [Root, Key("xyz", false)], Flat()) ==
        Err(MissingMapKey("abc", [Root, Key("abc", false)], map[Str("xyz") := S("xyz")]))
  {
    var from: Pointer := [Root, Key("xyz", false)];
    var path: Pointer := [Root, Key("abc", false), Key("def", false), Key("ghi", false)];
    assert RequiredKeys(from);
    assert Prefix(from, 2) == from;
    assert Prefix(path, 2) == [Root, Key("abc", false)];
    PopStep(ext, path, Replacing(S("xyz")), Flat(), [Start()]);
  }

  /** From the root to a new key: written, then the root removal is refused. */
  lemma FromNotPermissible(ext: Externals, find: Finder)
    requires ValidExternals(ext) && FindsRequiredKeys(find) && ext.cloneValue(Flat()).Cloned?
    ensures Move(ext, find, [Root, Key("abc", true)], [Root], Flat()) == Err(CannotRemoveWholeDocument)
  {
    var path: Pointer := [Root, Key("abc", true)];
    assert PlainKeys(path) && StepParent(path) == [];
    ReplaceLaws.ReplaceThenFind(ext, path, Flat(), Flat());
    FromRootRefused(ext, find, path, [Root], Flat());
  }

  /** `/xyz` to `/abc?` renames the key. */
  lemma MovesWithinMap(ext: Externals, find: Finder)
    requires ValidExternals(ext) && FindsRequiredKeys(find) && ext.cloneValue(S("xyz")).Cloned?
    ensures Move(ext, find, [Root, Key("abc", true)], [Root, Key("xyz", false)], Flat()) ==
      Ok(Map(map[Str("abc") := S("xyz")]))
  {
    var path: Pointer := [Root, Key("abc", true)];
    var from: Pointer := [Root, Key("xyz", false)];
    assert RequiredKeys(from) && PlainKeys(path);
    assert StepParent(from) == [];
    MoveRenamesKey(ext, find, path, from, Flat());
    assert Flat().entries[Str("abc") := S("xyz")] - {Str("xyz")} == map[Str("abc") := S("xyz")];
  }

  /** `/xyz` to `/abc/xyz?` moves the value into the nested mapping. */
  lemma MovesIntoMap(ext: Externals, find: Finder)
    requires ValidExternals(ext) && FindsRequiredKeys(find) && ext.cloneValue(S("xyz")).Cloned?
    ensures Move(ext, find, [Root, Key("abc", false), Key("xyz", true)], [Root, Key("xyz", false)], Nested()) ==
      Ok(Map(map[Str("abc") := Map(map[Str("def") := S("def"), Str("xyz") := S("xyz")])]))
  {
    var path: Pointer := [Root, Key("abc", false), Key("xyz", true)];
    var from: Pointer := [Root, Key("xyz", false)];
    var inner := Map(map[Str("def") := S("def"), Str("xyz") := S("xyz")]);
    assert RequiredKeys(from) && PlainKeys(path);
    assert StepParent(path) == [KeyStep(Str("abc"))];
    assert StepTarget(from) == [KeyStep(Str("xyz"))];
    FindAgrees(find, from, Nested());
    ReplaceLaws.ReplaceThenFind(ext, path, S("xyz"), Nested());
    var moved := Map(Nested().entries[Str("abc") := inner]);
    assert SetAt(Nested(), [KeyStep(Str("abc"))], inner) == moved;
    assert StepParent(from) == [];
    RemoveLaws.RemoveThenFind(ext, from, moved);
    assert moved.entries - {Str("xyz")} == map[Str("abc") := inner];
  }

  /** `/abc/def` to `/def?` moves the value out, leaving an empty mapping behind. */
  lemma MovesOutOfMap(ext: Externals, find: Finder)
    requires ValidExternals(ext) && FindsRequiredKeys(find) && ext.cloneValue(S("def")).Cloned?
    ensures Move(ext, find, [Root, Key("def", true)], [Root, Key("abc", false), Key("def", false)], Nested()) ==
      Ok(Map(map[Str("abc") := Map(map[]), Str("def") := S("def"), Str("xyz") := S("xyz")]))
  {
    var path: Pointer := [Root, Key("def", true)];
    var from: Pointer := [Root, Key("abc", false), Key("def", false)];
    assert RequiredKeys(from) && PlainKeys(path);
    assert StepParent(path) == [];
    assert StepTarget(from) == [KeyStep(Str("abc")), KeyStep(Str("def"))];
    FindAgrees(find, from, Nested());
    ReplaceLaws.ReplaceThenFind(ext, path, S("def"), Nested());
    var moved := Map(Nested().entries[Str("def") := S("def")]);
    assert StepParent(from) == [KeyStep(Str("abc"))];
    RemoveLaws.RemoveThenFind(ext, from, moved);
    assert SetAt(moved, [KeyStep(Str("abc"))], Map(map[])) ==
      Map(map[Str("abc") := Map(map[]), Str("def") := S("def"), Str("xyz") := S("xyz")]);
  }
}
