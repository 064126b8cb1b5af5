/**
  Parsing the text of a pointer gives the pointer back, for every pointer
  whose text is unambiguous.
 */
module PointerLaws {
  import opened Tokens
  import opened PointerText

  // ---- Escaping ---------------------------------------------------------

  /** The text after the first pass: `~` still written `~0`, `/` already decoded. */
  function Tilded(s: string): string
  {
    if s == [] then [] else (if s[0] == '~' then "~0" else [s[0]]) + Tilded(s[1..])
  }

  lemma DecodeCons(c: char, t: string, d: char, to: char)
    requires c != '~'
    ensures Decode([c] + t, d, to) == [c] + Decode(t, d, to)
  {
    assert ([c] + t)[1..] == t;
  }

  /** Text with no `~` has nothing to decode. */
  lemma {:induction false} DecodeNoTilde(s: string, d: char, to: char)
    requires '~' !in s
    ensures Decode(s, d, to) == s
    decreases |s|
  {
    if s != [] {
      DecodeNoTilde(s[1..], d, to);
      assert s == [s[0]] + s[1..];
    }
  }

  lemma UnescapeNoTilde(s: string)
    requires '~' !in s
    ensures Unescape(s) == s
  {
    DecodeNoTilde(s, '1', '/');
    DecodeNoTilde(s, '0', '~');
  }

  lemma DecodePair(rest: string, d: char, to: char)
    ensures Decode(['~', d] + rest, d, to) == [to] + Decode(rest, d, to)
  {
    assert (['~', d] + rest)[2..] == rest;
  }

  lemma DecodeTildeZero(rest: string)
    ensures Decode("~0" + rest, '1', '/') == "~0" + Decode(rest, '1', '/')
  {
    assert ("~0" + rest)[1..] == "0" + rest;
    DecodeCons('0', rest, '1', '/');
  }

  lemma EscapeCons(s: string, t: string)
    requires s != []
    ensures Escape(s) + t == EscapeChar(s[0]) + (Escape(s[1..]) + t)
  {
  }

  lemma TildedCons(s: string, t: string)
    requires s != []
    ensures Tilded(s) + t == (if s[0] == '~' then "~0" else [s[0]]) + (Tilded(s[1..]) + t)
  {
  }

  lemma {:induction false} FirstPass(s: string, t: string)
    ensures Decode(Escape(s) + t, '1', '/') == Tilded(s) + Decode(t, '1', '/')
    decreases |s|
  {
    if s == [] {
      assert Escape(s) + t == t;
    } else {
      var rest := Escape(s[1..]) + t;
      var head := if s[0] == '~' then "~0" else [s[0]];
      FirstPass(s[1..], t);
      EscapeCons(s, t);
      TildedCons(s, Decode(t, '1', '/'));
      if s[0] == '~' {
        DecodeTildeZero(rest);
      } else if s[0] == '/' {
        DecodePair(rest, '1', '/');
      } else {
        DecodeCons(s[0], rest, '1', '/');
      }
      assert Decode(Escape(s) + t, '1', '/') == head + Decode(rest, '1', '/');
    }
  }

  /** The second pass over one written character gives that character back. */
  lemma SecondPassHead(s: string, t: string)
    requires s != []
    ensures Decode(Tilded(s) + t, '0', '~') == [s[0]] + Decode(Tilded(s[1..]) + t, '0', '~')
  {
    var rest := Tilded(s[1..]) + t;
    TildedCons(s, t);
    if s[0] == '~' {
      DecodePair(rest, '0', '~');
    } else {
      DecodeCons(s[0], rest, '0', '~');
    }
  }

  lemma {:induction false} SecondPass(s: string, t: string)
    ensures Decode(Tilded(s) + t, '0', '~') == s + Decode(t, '0', '~')
    decreases |s|
  {
    if s == [] {
      assert Tilded(s) + t == t;
    } else {
      SecondPass(s[1..], t);
      SecondPassHead(s, t);
      assert s + Decode(t, '0', '~') == [s[0]] + (s[1..] + Decode(t, '0', '~'));
    }
  }

  /** Unescaping undoes escaping, also when more text follows. */
  lemma UnescapeEscape(s: string, t: string)
    ensures Unescape(Escape(s) + t) == s + Unescape(t)
  {
    FirstPass(s, t);
    SecondPass(s, Decode(t, '1', '/'));
  }

  // ---- Integers ---------------------------------------------------------

  /** `Atoi` reads back the decimal text of every 64-bit integer. */
  lemma AtoiIntToString(n: int)
    requires MinInt64 <= n <= MaxInt64
    ensures Atoi(IntToString(n)) == Some(n)
  {
    var s := IntToString(n);
    if n < 0 {
      assert s[1..] == NatToString(-n);
    } else {
      assert IsDigit(s[0]);
    }
  }

  // ---- Segments ---------------------------------------------------------

  lemma {:induction false} SplitAppend(p: string, t: string)
    requires '/' !in p
    ensures Split(p + t) == [p + Split(t)[0]] + Split(t)[1..]
    decreases |p|
  {
    if p == [] {
      assert p + t == t;
      assert p + Split(t)[0] == Split(t)[0];
      assert Split(t) == [Split(t)[0]] + Split(t)[1..];
    } else {
      SplitAppend(p[1..], t);
      assert (p + t)[1..] == p[1..] + t;
      assert [p[0]] + (p[1..] + Split(t)[0]) == p + Split(t)[0];
    }
  }

  /** Splitting joined pieces without `/` gives the pieces back. */
  lemma {:induction false} SplitJoin(parts: seq<string>)
    requires |parts| >= 1 && forall j :: 0 <= j < |parts| ==> '/' !in parts[j]
    ensures Split(Join(parts)) == parts
    decreases |parts|
  {
    if |parts| == 1 {
      SplitAppend(parts[0], "");
      assert parts[0] + "" == parts[0];
    } else {
      var rest := Join(parts[1..]);
      SplitJoin(parts[1..]);
      assert Join(parts) == parts[0] + ("/" + rest);
      SplitAppend(parts[0], "/" + rest);
      assert ("/" + rest)[1..] == rest;
      assert parts[0] + "" == parts[0];
    }
  }

  // ---- Canonical pointers -------------------------------------------------

  /**
    A token whose text parses back to it, given whether it is last and
    whether an earlier one was optional: no root or wildcard, no
    modifiers, a 64-bit index, `-` only at the end, keys that do not read
    as an integer, contain no `=` and do not end in `?`, matching keys
    without `=` and values not ending in `?`, and once one token is
    optional every later key and matching token is optional too.
   */
  predicate CanonicalToken(t: Token, isLast: bool, seen: bool)
  {
    match t
    case Root => false
    case Wildcard => false
    case Index(n, mods) => mods == [] && MinInt64 <= n <= MaxInt64
    case AfterLast => isLast
    case Key(k, opt) =>
      (seen ==> opt) && Atoi(k) == None && '=' !in k && !EndsWithMark(k) && !(isLast && k == "-")
    case Matching(k, v, opt, mods) =>
      mods == [] && (seen ==> opt) && '=' !in k && !EndsWithMark(v)
  }

  predicate CanonicalFrom(ts: seq<Token>, seen: bool)
  {
    ts == [] ||
    (CanonicalToken(ts[0], |ts| == 1, seen) && CanonicalFrom(ts[1..], seen || MarkedOptional(ts[0])))
  }

  predicate Canonical(p: Pointer)
  {
    CanonicalFrom(p[1..], false)
  }

  lemma MarkedSegment(text: string, m: string)
    requires m == "" || m == "?"
    requires !EndsWithMark(text)
    ensures EndsWithMark(text + m) <==> m == "?"
    ensures m == "?" ==> (text + m)[..|text + m| - 1] == text
  {
    if m == "?" {
      assert (text + m)[..|text + m| - 1] == text;
    } else {
      assert text + m == text;
    }
  }

  lemma IndexRoundTrip(n: int, isLast: bool, seen: bool)
    requires MinInt64 <= n <= MaxInt64
    ensures ParseSegment(IntToString(n), isLast, seen) == (Index(n, []), seen)
  {
    var s := IntToString(n);
    UnescapeNoTilde(s);
    AtoiIntToString(n);
    assert s != "-" by {
      if |s| == 1 {
        assert IsDigit(s[0]);
      }
    }
  }

  /** A text marked `?` never reads as an integer. */
  lemma MarkedNotInteger(text: string)
    requires EndsWithMark(text)
    ensures Atoi(text) == None
  {
    assert !IsDigit(text[|text| - 1]);
  }

  /** A text with `=` in it never reads as an integer. */
  lemma EqualsNotInteger(text: string, i: nat)
    requires i < |text| && text[i] == '='
    ensures Atoi(text) == None
  {
    assert !IsDigit(text[i]);
  }

  /** How a segment whose unescaped text is a key, optionally marked, is read. */
  lemma ClassifyKey(seg: string, k: string, m: string, isLast: bool, seen: bool)
    requires m == "" || m == "?"
    requires Unescape(seg) == k + m
    requires Atoi(k) == None && '=' !in k && !EndsWithMark(k) && !(isLast && k == "-")
    ensures ParseSegment(seg, isLast, seen) == (Key(k, seen || m == "?"), seen || m == "?")
  {
    var text := k + m;
    MarkedSegment(k, m);
    if m == "?" {
      assert text[|text| - 1] == '?';
      MarkedNotInteger(text);
    } else {
      assert text == k;
    }
  }

  lemma KeyRoundTrip(k: string, opt: bool, isLast: bool, seen: bool)
    requires CanonicalToken(Key(k, opt), isLast, seen)
    ensures ParseSegment(RenderToken(Key(k, opt), seen), isLast, seen) == (Key(k, opt), seen || opt)
  {
    var m := Mark(Key(k, opt), seen);
    UnescapeEscape(k, m);
    UnescapeNoTilde(m);
    ClassifyKey(RenderToken(Key(k, opt), seen), k, m, isLast, seen);
  }

  lemma UnescapeCons(c: char, t: string)
    requires c != '~'
    ensures Unescape([c] + t) == [c] + Unescape(t)
  {
    DecodeCons(c, t, '1', '/');
    DecodeCons(c, Decode(t, '1', '/'), '0', '~');
  }

  /** The unescaped text of a matching segment. */
  lemma MatchingText(k: string, v: string, m: string)
    requires '~' !in m
    ensures Unescape(Escape(k) + ("=" + (Escape(v) + m))) == k + ("=" + (v + m))
  {
    var tail := Escape(v) + m;
    UnescapeEscape(k, "=" + tail);
    UnescapeCons('=', tail);
    UnescapeEscape(v, m);
    UnescapeNoTilde(m);
  }

  /** The first `=` of `k=v` when `k` has none is the one after `k`. */
  lemma SplitAtEquals(k: string, v: string)
    requires '=' !in k
    ensures var body := k + "=" + v;
      '=' in body && body[..FirstEquals(body)] == k && body[FirstEquals(body) + 1..] == v
  {
    var body := k + "=" + v;
    assert body[|k|] == '=';
    var i := FirstEquals(body);
    assert i == |k|;
    assert body[..i] == k;
    assert body[i + 1..] == v;
  }

  /** How a segment whose unescaped text is `k=v`, optionally marked, is read. */
  lemma ClassifyMatching(seg: string, k: string, v: string, m: string, isLast: bool, seen: bool)
    requires m == "" || m == "?"
    requires Unescape(seg) == k + ("=" + (v + m))
    requires '=' !in k && !EndsWithMark(v)
    ensures ParseSegment(seg, isLast, seen) == (Matching(k, v, seen || m == "?", []), seen || m == "?")
  {
    var body := k + "=" + v;
    var text := body + m;
    assert text == k + ("=" + (v + m));
    assert text[|k|] == '=';
    EqualsNotInteger(text, |k|);
    assert !EndsWithMark(body) by {
      if v == "" {
        assert body[|body| - 1] == '=';
      } else {
        assert body[|body| - 1] == v[|v| - 1];
      }
    }
    MarkedSegment(body, m);
    SplitAtEquals(k, v);
    assert text != "-" by {
      if |text| == 1 {
        assert text[0] == '=';
      }
    }
    assert (if EndsWithMark(text) then text[..|text| - 1] else text) == body;
  }

  lemma MatchingRoundTrip(k: string, v: string, opt: bool, isLast: bool, seen: bool)
    requires CanonicalToken(Matching(k, v, opt, []), isLast, seen)
    ensures ParseSegment(RenderToken(Matching(k, v, opt, []), seen), isLast, seen) == (Matching(k, v, opt, []), seen || opt)
  {
    var m := Mark(Matching(k, v, opt, []), seen);
    MatchingText(k, v, m);
    ClassifyMatching(RenderToken(Matching(k, v, opt, []), seen), k, v, m, isLast, seen);
  }

  /** One canonical token: its text parses to it, and the optional flag carries on as the renderer assumed. */
  lemma SegmentRoundTrip(t: Token, isLast: bool, seen: bool)
    requires CanonicalToken(t, isLast, seen)
    ensures ParseSegment(RenderToken(t, seen), isLast, seen) == (t, seen || MarkedOptional(t))
  {
    match t
    case Index(n, _) => IndexRoundTrip(n, isLast, seen);
    case AfterLast => UnescapeNoTilde("-");
    case Key(k, opt) => KeyRoundTrip(k, opt, isLast, seen);
    case Matching(k, v, opt, _) => MatchingRoundTrip(k, v, opt, isLast, seen);
  }

  /** The segments of a canonical token list parse back to it. */
  lemma RenderCons(ts: seq<Token>, seen: bool)
    requires ts != []
    ensures Render(ts, seen)[0] == RenderToken(ts[0], seen)
    ensures Render(ts, seen)[1..] == Render(ts[1..], seen || MarkedOptional(ts[0]))
  {
  }

  lemma ParseSegmentsCons(segs: seq<string>, seen: bool)
    requires segs != []
    ensures var (t, opt) := ParseSegment(segs[0], |segs| == 1, seen);
      ParseSegments(segs, seen) == [t] + ParseSegments(segs[1..], opt)
  {
  }

  lemma {:induction false} SegmentsRoundTrip(ts: seq<Token>, seen: bool)
    requires CanonicalFrom(ts, seen)
    ensures ParseSegments(Render(ts, seen), seen) == ts
    decreases |ts|
  {
    if ts != [] {
      var segs := Render(ts, seen);
      var after := seen || MarkedOptional(ts[0]);
      RenderCons(ts, seen);
      SegmentRoundTrip(ts[0], |ts| == 1, seen);
      SegmentsRoundTrip(ts[1..], after);
      ParseSegmentsCons(segs, seen);
      assert ts == [ts[0]] + ts[1..];
    }
  }

  /**
    Every canonical pointer survives serialising and parsing, so its text
    is also a fixed point of parsing and serialising again.
   */
  lemma ParseString(p: Pointer)
    requires Canonical(p)
    ensures Parse(String(p)) == Ok(p)
    ensures String(Parse(String(p)).value) == String(p)
  {
    var segs := Render(p, false);
    if |p| == 1 {
      assert p == [Root];
    } else {
      var rest := Render(p[1..], false);
      assert segs == [""] + rest;
      assert String(p) == "" + "/" + Join(rest);
      assert String(p)[1..] == Join(rest);
      SplitJoin(rest);
      SegmentsRoundTrip(p[1..], false);
      assert p == [Root] + p[1..];
    }
  }
}
