/**
  The pointer texts and token lists of patch/pointer_test.go: each text is
  what the token list serialises to, and parses back to that token list.
 */
module PointerTable {
  import opened Tokens
  import opened PointerText
  import opened PointerLaws

  /** `s` is the text of `p`, and parsing `s` gives `p`. */
  predicate Row(p: Pointer, s: string)
  {
    String(p) == s && Parse(s) == Ok(p)
  }

  /** A canonical pointer with text `s` is a row. */
  lemma RowOf(p: Pointer, s: string)
    requires Canonical(p) && String(p) == s
    ensures Row(p, s)
  {
    ParseString(p);
  }

  /** A text with neither `~` nor `/` is its own escaping. */
  lemma {:induction false} EscapePlain(s: string)
    requires '~' !in s && '/' !in s
    ensures Escape(s) == s
    decreases |s|
  {
    if s != [] {
      EscapePlain(s[1..]);
      assert s == [s[0]] + s[1..];
    }
  }

  /** The text of a key without `~` or `/`: the key, marked when it is the first optional one. */
  lemma PlainKey(k: string, opt: bool, seen: bool)
    requires '~' !in k && '/' !in k
    ensures RenderToken(Key(k, opt), seen) == k + (if opt && !seen then "?" else "")
  {
    EscapePlain(k);
  }

  /** The text of a matching index whose sides have no `~` or `/`. */
  lemma PlainMatching(k: string, v: string, opt: bool, seen: bool)
    requires '~' !in k && '/' !in k && '~' !in v && '/' !in v
    ensures RenderToken(Matching(k, v, opt, []), seen) == k + "=" + v + (if opt && !seen then "?" else "")
  {
    EscapePlain(k);
    EscapePlain(v);
  }

  /** A text that starts with neither a digit nor a sign is not an integer. */
  lemma NotInteger(s: string)
    requires |s| > 0 && !IsDigit(s[0]) && s[0] != '+' && s[0] != '-'
    ensures Atoi(s) == None
  {
  }

  // ---- The text of short pointers, one segment at a time -----------------

  lemma Join2(x: string, y: string)
    ensures Join([x, y]) == x + "/" + y
  {
    assert [x, y][1..] == [y];
  }

  lemma Join3(x: string, y: string, z: string)
    ensures Join([x, y, z]) == x + "/" + y + "/" + z
  {
    assert [x, y, z][1..] == [y, z];
    Join2(y, z);
  }

  lemma Join4(w: string, x: string, y: string, z: string)
    ensures Join([w, x, y, z]) == w + "/" + x + "/" + y + "/" + z
  {
    assert [w, x, y, z][1..] == [x, y, z];
    Join3(x, y, z);
  }

  lemma Render1(a: Token, seen: bool)
    ensures Render([a], seen) == [RenderToken(a, seen)]
  {
    RenderCons([a], seen);
  }

  lemma Render2(a: Token, b: Token, seen: bool)
    ensures Render([a, b], seen) == [RenderToken(a, seen), RenderToken(b, seen || MarkedOptional(a))]
  {
    RenderCons([a, b], seen);
    assert [a, b][1..] == [b];
    Render1(b, seen || MarkedOptional(a));
  }

  lemma Render3(a: Token, b: Token, c: Token, seen: bool)
    ensures var after := seen || MarkedOptional(a);
      Render([a, b, c], seen) ==
        [RenderToken(a, seen), RenderToken(b, after), RenderToken(c, after || MarkedOptional(b))]
  {
    RenderCons([a, b, c], seen);
    assert [a, b, c][1..] == [b, c];
    Render2(b, c, seen || MarkedOptional(a));
  }

  lemma Text1(a: Token)
    ensures String([Root, a]) == "/" + RenderToken(a, false)
  {
    var ts := [Root, a];
    RenderCons(ts, false);
    assert ts[1..] == [a];
    Render1(a, false);
    Join2("", RenderToken(a, false));
  }

  lemma Text2(a: Token, b: Token)
    ensures String([Root, a, b]) ==
      "/" + RenderToken(a, false) + "/" + RenderToken(b, MarkedOptional(a))
  {
    var ts := [Root, a, b];
    RenderCons(ts, false);
    assert ts[1..] == [a, b];
    Render2(a, b, false);
    Join3("", RenderToken(a, false), RenderToken(b, MarkedOptional(a)));
    assert "" + "/" == "/";
  }

  lemma Text3(a: Token, b: Token, c: Token)
    ensures var seen := MarkedOptional(a) || MarkedOptional(b);
      String([Root, a, b, c]) ==
        "/" + RenderToken(a, false) + "/" + RenderToken(b, MarkedOptional(a)) + "/" + RenderToken(c, seen)
  {
    var ts := [Root, a, b, c];
    RenderCons(ts, false);
    assert ts[1..] == [a, b, c];
    Render3(a, b, c, false);
    Join4("", RenderToken(a, false), RenderToken(b, MarkedOptional(a)),
      RenderToken(c, MarkedOptional(a) || MarkedOptional(b)));
    assert "" + "/" == "/";
  }

  // ---- Rows of one, two and three segments -------------------------------

  lemma OneSegment(a: Token, s: string)
    requires CanonicalToken(a, true, false)
    requires s == "/" + RenderToken(a, false)
    ensures Row([Root, a], s)
  {
    var p := [Root, a];
    assert p[1..] == [a];
    Text1(a);
    RowOf(p, s);
  }

  lemma TwoSegments(a: Token, b: Token, x: string, y: string, s: string)
    requires CanonicalToken(a, false, false) && CanonicalToken(b, true, MarkedOptional(a))
    requires RenderToken(a, false) == x && RenderToken(b, MarkedOptional(a)) == y
    requires s == "/" + x + "/" + y
    ensures Row([Root, a, b], s)
  {
    var p := [Root, a, b];
    assert p[1..] == [a, b] && p[1..][1..] == [b];
    Text2(a, b);
    RowOf(p, s);
  }

  lemma ThreeSegments(a: Token, b: Token, c: Token, x: string, y: string, z: string, s: string)
    requires CanonicalToken(a, false, false) && CanonicalToken(b, false, MarkedOptional(a))
    requires CanonicalToken(c, true, MarkedOptional(a) || MarkedOptional(b))
    requires RenderToken(a, false) == x && RenderToken(b, MarkedOptional(a)) == y
    requires RenderToken(c, MarkedOptional(a) || MarkedOptional(b)) == z
    requires s == "/" + x + "/" + y + "/" + z
    ensures Row([Root, a, b, c], s)
  {
    var p := [Root, a, b, c];
    assert p[1..] == [a, b, c] && p[1..][1..] == [b, c] && p[1..][1..][1..] == [c];
    assert CanonicalFrom([c], MarkedOptional(a) || MarkedOptional(b));
    assert CanonicalFrom([b, c], MarkedOptional(a));
    Text3(a, b, c);
    RowOf(p, s);
  }

  // ---- Rows of keys and matching indices that need no escaping -----------

  /** The `?` that the first optional segment carries. */
  function MarkText(opt: bool, seen: bool): string
  {
    if opt && !seen then "?" else ""
  }

  /** Key text that needs no escaping and reads back as a key. */
  predicate KeyText(k: string)
  {
    '~' !in k && '/' !in k && '=' !in k && !EndsWithMark(k) &&
    (k == "" || (!IsDigit(k[0]) && k[0] != '+' && k[0] != '-'))
  }

  /** The two sides of a matching index that need no escaping and read back as they are. */
  predicate SidesText(k: string, v: string)
  {
    '~' !in k && '/' !in k && '=' !in k && '~' !in v && '/' !in v && !EndsWithMark(v)
  }

  lemma KeySegment(k: string, opt: bool, isLast: bool, seen: bool)
    requires KeyText(k) && (seen ==> opt)
    ensures CanonicalToken(Key(k, opt), isLast, seen)
    ensures RenderToken(Key(k, opt), seen) == k + MarkText(opt, seen)
  {
    if k != "" {
      NotInteger(k);
    }
    PlainKey(k, opt, seen);
  }

  lemma MatchingSegment(k: string, v: string, opt: bool, isLast: bool, seen: bool)
    requires SidesText(k, v) && (seen ==> opt)
    ensures CanonicalToken(Matching(k, v, opt, []), isLast, seen)
    ensures RenderToken(Matching(k, v, opt, []), seen) == k + "=" + v + MarkText(opt, seen)
  {
    PlainMatching(k, v, opt, seen);
  }

  lemma KeyKeyRow(k1: string, o1: bool, k2: string, o2: bool, s: string)
    requires KeyText(k1) && KeyText(k2) && (o1 ==> o2)
    requires s == "/" + (k1 + MarkText(o1, false)) + "/" + (k2 + MarkText(o2, o1))
    ensures Row([Root, Key(k1, o1), Key(k2, o2)], s)
  {
    KeySegment(k1, o1, false, false);
    KeySegment(k2, o2, true, o1);
    TwoSegments(Key(k1, o1), Key(k2, o2), k1 + MarkText(o1, false), k2 + MarkText(o2, o1), s);
  }

  lemma KeyKeyKeyRow(k1: string, o1: bool, k2: string, o2: bool, k3: string, o3: bool, s: string)
    requires KeyText(k1) && KeyText(k2) && KeyText(k3) && (o1 ==> o2) && (o2 ==> o3)
    requires s == "/" + (k1 + MarkText(o1, false)) + "/" + (k2 + MarkText(o2, o1)) + "/" + (k3 + MarkText(o3, o1 || o2))
    ensures Row([Root, Key(k1, o1), Key(k2, o2), Key(k3, o3)], s)
  {
    KeySegment(k1, o1, false, false);
    KeySegment(k2, o2, false, o1);
    KeySegment(k3, o3, true, o1 || o2);
    ThreeSegments(Key(k1, o1), Key(k2, o2), Key(k3, o3),
      k1 + MarkText(o1, false), k2 + MarkText(o2, o1), k3 + MarkText(o3, o1 || o2), s);
  }

  lemma MatchingMatchingRow(k1: string, v1: string, o1: bool, k2: string, v2: string, o2: bool, s: string)
    requires SidesText(k1, v1) && SidesText(k2, v2) && (o1 ==> o2)
    requires s == "/" + (k1 + "=" + v1 + MarkText(o1, false)) + "/" + (k2 + "=" + v2 + MarkText(o2, o1))
    ensures Row([Root, Matching(k1, v1, o1, []), Matching(k2, v2, o2, [])], s)
  {
    MatchingSegment(k1, v1, o1, false, false);
    MatchingSegment(k2, v2, o2, true, o1);
    TwoSegments(Matching(k1, v1, o1, []), Matching(k2, v2, o2, []),
      k1 + "=" + v1 + MarkText(o1, false), k2 + "=" + v2 + MarkText(o2, o1), s);
  }

  lemma KeyMatchingRow(k1: string, o1: bool, k2: string, v2: string, o2: bool, s: string)
    requires KeyText(k1) && SidesText(k2, v2) && (o1 ==> o2)
    requires s == "/" + (k1 + MarkText(o1, false)) + "/" + (k2 + "=" + v2 + MarkText(o2, o1))
    ensures Row([Root, Key(k1, o1), Matching(k2, v2, o2, [])], s)
  {
    KeySegment(k1, o1, false, false);
    MatchingSegment(k2, v2, o2, true, o1);
    TwoSegments(Key(k1, o1), Matching(k2, v2, o2, []),
      k1 + MarkText(o1, false), k2 + "=" + v2 + MarkText(o2, o1), s);
  }

  lemma MatchingKeyRow(k1: string, v1: string, o1: bool, k2: string, o2: bool, s: string)
    requires SidesText(k1, v1) && KeyText(k2) && (o1 ==> o2)
    requires s == "/" + (k1 + "=" + v1 + MarkText(o1, false)) + "/" + (k2 + MarkText(o2, o1))
    ensures Row([Root, Matching(k1, v1, o1, []), Key(k2, o2)], s)
  {
    MatchingSegment(k1, v1, o1, false, false);
    KeySegment(k2, o2, true, o1);
    TwoSegments(Matching(k1, v1, o1, []), Key(k2, o2),
      k1 + "=" + v1 + MarkText(o1, false), k2 + MarkText(o2, o1), s);
  }

  /** A matching index, not optional, whose sides each hold one `~`. */
  lemma TildeMatchingRow(k1: string, k2: string, v1: string, v2: string, s: string)
    requires SidesText(k1, v1) && SidesText(k2, v2) && v2 != ""
    requires s == "/" + (k1 + "~0" + k2) + "=" + (v1 + "~0" + v2)
    ensures Row([Root, Matching(k1 + "~" + k2, v1 + "~" + v2, false, [])], s)
  {
    var k := k1 + "~" + k2;
    var v := v1 + "~" + v2;
    EscapeTilde(k1, k2);
    EscapeTilde(v1, v2);
    assert '=' !in k;
    assert v[|v| - 1] == v2[|v2| - 1];
    assert s == "/" + (Escape(k) + ("=" + (Escape(v) + "")));
    OneSegment(Matching(k, v, false, []), s);
  }

  /** Escaping works character by character. */
  lemma {:induction false} EscapeAppend(a: string, b: string)
    ensures Escape(a + b) == Escape(a) + Escape(b)
    decreases |a|
  {
    if a != [] {
      assert (a + b)[1..] == a[1..] + b;
      EscapeAppend(a[1..], b);
    } else {
      assert a + b == b;
    }
  }

  /** `~` inside a text without `/` and other `~` is escaped in place. */
  lemma EscapeTilde(a: string, b: string)
    requires '~' !in a && '/' !in a && '~' !in b && '/' !in b
    ensures Escape(a + "~" + b) == a + "~0" + b
  {
    EscapeAppend(a + "~", b);
    EscapeAppend(a, "~");
    EscapePlain(a);
    EscapePlain(b);
  }

  // ---- The rows ------------------------------------------------------------

  /** The empty text is the whole document; a text not starting with `/` is refused. */
  lemma WholeDocument()
    ensures Row([Root], "")
    ensures Parse("abc") == Err(ParseError("Expected to start with '/'"))
  {
  }

  /** The empty key at the root level. */
  lemma EmptyKey()
    ensures Row([Root, Key("", false)], "/")
  {
    OneSegment(Key("", false), "/");
  }

  /** A blank key. */
  lemma BlankKey()
    ensures Row([Root, Key(" ", false)], "/ ")
  {
    EscapePlain(" ");
    NotInteger(" ");
    OneSegment(Key(" ", false), "/ ");
  }

  lemma SingleKey()
    ensures Row([Root, Key("key", false)], "/key")
  {
    EscapePlain("key");
    NotInteger("key");
    OneSegment(Key("key", false), "/key");
  }

  /** A trailing `/` is an empty last key. */
  lemma TrailingEmptyKey()
    ensures Row([Root, Key("key", false), Key("", false)], "/key/")
  {
    KeyKeyRow("key", false, "", false, "/key/");
  }

  lemma TwoKeys()
    ensures Row([Root, Key("key", false), Key("key2", false)], "/key/key2")
  {
    KeyKeyRow("key", false, "key2", false, "/key/key2");
  }

  /** Once a key is marked optional, every later key is optional and unmarked. */
  lemma OptionalCarriesOn()
    ensures Row([Root, Key("key", true), Key("key2", true), Key("key3", true)], "/key?/key2/key3")
  {
    KeyKeyKeyRow("key", true, "key2", true, "key3", true, "/key?/key2/key3");
  }

  /** Integers are indices. */
  lemma IndexZero()
    ensures Row([Root, Index(0, [])], "/0")
  {
    OneSegment(Index(0, []), "/0");
  }

  lemma LargeIndex()
    ensures Row([Root, Index(1000001, [])], "/1000001")
  {
    OneSegment(Index(1000001, []), "/1000001");
  }

  /** Negative integers are indices too. */
  lemma NegativeIndex()
    ensures Row([Root, Index(-2, [])], "/-2")
  {
    OneSegment(Index(-2, []), "/-2");
  }

  /** `-` at the end is the after-last index. */
  lemma AfterLastAlone()
    ensures Row([Root, AfterLast], "/-")
  {
    OneSegment(AfterLast, "/-");
  }

  lemma AfterLastUnderKey()
    ensures Row([Root, Key("ary", false), AfterLast], "/ary/-")
  {
    EscapePlain("ary");
    NotInteger("ary");
    TwoSegments(Key("ary", false), AfterLast, "ary", "-", "/ary/-");
  }

  /** `-` anywhere but at the end is a key. */
  lemma DashKeyNotLast()
    ensures Row([Root, Key("-", false), Key("key", false)], "/-/key")
  {
    EscapePlain("-");
    EscapePlain("key");
    NotInteger("key");
    TwoSegments(Key("-", false), Key("key", false), "-", "key", "/-/key");
  }

  /** `k=v` is a matching index. */
  lemma MatchingKeyValue()
    ensures Row([Root, Matching("name", "val", false, [])], "/name=val")
  {
    PlainMatching("name", "val", false, false);
    OneSegment(Matching("name", "val", false, []), "/name=val");
  }

  lemma OptionalMatching()
    ensures Row([Root, Matching("name", "val", true, [])], "/name=val?")
  {
    PlainMatching("name", "val", true, false);
    OneSegment(Matching("name", "val", true, []), "/name=val?");
  }

  lemma OptionalMatchingCarriesOn()
    ensures Row([Root, Matching("name", "val", true, []), Matching("name2", "val", true, [])], "/name=val?/name2=val")
  {
    MatchingMatchingRow("name", "val", true, "name2", "val", true, "/name=val?/name2=val");
  }

  /** Either side of `=` may be empty. */
  lemma EmptyMatching()
    ensures Row([Root, Matching("", "", false, [])], "/=")
  {
    OneSegment(Matching("", "", false, []), "/=");
  }

  lemma EmptyOptionalMatching()
    ensures Row([Root, Matching("", "", true, [])], "/=?")
  {
    OneSegment(Matching("", "", true, []), "/=?");
  }

  lemma EmptyMatchingValue()
    ensures Row([Root, Matching("name", "", false, [])], "/name=")
  {
    EscapePlain("name");
    OneSegment(Matching("name", "", false, []), "/name=");
  }

  lemma EmptyMatchingKey()
    ensures Row([Root, Matching("", "val", false, [])], "/=val")
  {
    EscapePlain("val");
    OneSegment(Matching("", "val", false, []), "/=val");
  }

  /** Only the first `=` splits. */
  lemma EqualsInMatchingValue()
    ensures Row([Root, Matching("", "=", false, [])], "/==")
  {
    EscapePlain("=");
    OneSegment(Matching("", "=", false, []), "/==");
  }

  /** The optional mark carries from a key to a matching index. */
  lemma OptionalKeyThenMatching()
    ensures Row([Root, Key("key", true), Matching("name", "val", true, [])], "/key?/name=val")
  {
    KeyMatchingRow("key", true, "name", "val", true, "/key?/name=val");
  }

  /** The optional mark carries from a matching index to a key. */
  lemma OptionalMatchingThenKey()
    ensures Row([Root, Matching("name", "val", true, []), Key("key", true)], "/name=val?/key")
  {
    MatchingKeyRow("name", "val", true, "key", true, "/name=val?/key");
  }

  /** `~` is written `~0`. */
  lemma EscapedTilde()
    ensures Row([Root, Key("m~n", false)], "/m~0n")
  {
    NotInteger("m~n");
    OneSegment(Key("m~n", false), "/m~0n");
  }

  /** `~1` in a key is written `~01`, not read as `/`. */
  lemma EscapedTildeOne()
    ensures Row([Root, Key("a~1b", false)], "/a~01b")
  {
    NotInteger("a~1b");
    OneSegment(Key("a~1b", false), "/a~01b");
  }

  /** `/` is written `~1`. */
  lemma EscapedSlash()
    ensures Row([Root, Key("a/b", false)], "/a~1b")
  {
    NotInteger("a/b");
    OneSegment(Key("a/b", false), "/a~1b");
  }

  /** Both sides of a matching index are escaped. */
  lemma EscapedMatching()
    ensures Row([Root, Matching("name~n", "val~n", false, [])], "/name~0n=val~0n")
  {
    assert "name" + "~" + "n" == "name~n" && "val" + "~" + "n" == "val~n";
    TildeMatchingRow("name", "n", "val", "n", "/name~0n=val~0n");
  }

  /** Other punctuation is taken literally. */
  lemma PercentKey()
    ensures Row([Root, Key("c%d", false)], "/c%d")
  {
    EscapePlain("c%d");
    NotInteger("c%d");
    OneSegment(Key("c%d", false), "/c%d");
  }

  lemma CaretKey()
    ensures Row([Root, Key("e^f", false)], "/e^f")
  {
    EscapePlain("e^f");
    NotInteger("e^f");
    OneSegment(Key("e^f", false), "/e^f");
  }

  lemma BarKey()
    ensures Row([Root, Key("g|h", false)], "/g|h")
  {
    EscapePlain("g|h");
    NotInteger("g|h");
    OneSegment(Key("g|h", false), "/g|h");
  }

  lemma BackslashKey()
    ensures Row([Root, Key("i\\j", false)], "/i\\j")
  {
    EscapePlain("i\\j");
    NotInteger("i\\j");
    OneSegment(Key("i\\j", false), "/i\\j");
  }

  lemma QuoteKey()
    ensures Row([Root, Key("k\"l", false)], "/k\"l")
  {
    EscapePlain("k\"l");
    NotInteger("k\"l");
    OneSegment(Key("k\"l", false), "/k\"l");
  }

  /** A mark on the last key makes only that key optional. */
  lemma MarkOnLastKey()
    ensures Row([Root, Key("key", false), Key("key2", true)], "/key/key2?")
  {
    KeyKeyRow("key", false, "key2", true, "/key/key2?");
  }
}
