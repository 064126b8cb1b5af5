/**
  The text form of a pointer: `""` is the whole document; otherwise the
  text starts with `/` and every `/` starts a segment. Inside a segment
  `~` and `/` are written `~0` and `~1` (the JSON Pointer escaping of
  section 4 of RFC 6901); a trailing `?` marks the segment and every later
  key or matching segment optional; `k=v` is a matching index; a bare `-`
  at the end is the after-last index; an integer is an index; anything
  else is a key.
 */
module PointerText {
  import opened Tokens

  datatype Option<T> = None | Some(value: T)

  // ---- Escaping --------------------------------------------------------

  function EscapeChar(c: char): string
  {
    if c == '~' then "~0" else if c == '/' then "~1" else [c]
  }

  /** `~` becomes `~0` and `/` becomes `~1`: an escaped segment never contains `/`. */
  function Escape(s: string): (r: string)
    ensures '/' !in r
    ensures |r| >= |s|
  {
    if s == [] then [] else EscapeChar(s[0]) + Escape(s[1..])
  }

  /** One decoding pass: every `~d`, scanned from the left, becomes `to`. */
  function Decode(s: string, d: char, to: char): (r: string)
    ensures |r| <= |s|
    decreases |s|
  {
    if |s| >= 2 && s[0] == '~' && s[1] == d then [to] + Decode(s[2..], d, to)
    else if s == [] then []
    else [s[0]] + Decode(s[1..], d, to)
  }

  /** `~1` is decoded before `~0`, so `~01` stands for `~1`. */
  function Unescape(s: string): string
  {
    Decode(Decode(s, '1', '/'), '0', '~')
  }

  // ---- Integers ----------------------------------------------------------

  const MinInt64: int := -0x8000_0000_0000_0000
  const MaxInt64: int := 0x7fff_ffff_ffff_ffff

  predicate IsDigit(c: char)
  {
    '0' <= c <= '9'
  }

  predicate AllDigits(s: string)
  {
    |s| > 0 && forall i :: 0 <= i < |s| ==> IsDigit(s[i])
  }

  function DigitsValue(s: string): nat
    requires forall i :: 0 <= i < |s| ==> IsDigit(s[i])
  {
    if s == [] then 0
    else
      assert IsDigit(s[|s| - 1]);
      DigitsValue(s[..|s| - 1]) * 10 + (s[|s| - 1] as int - '0' as int)
  }

  /**
    Decimal integer text as the standard library's `Atoi` reads it on a
    64-bit platform: an optional sign, at least one digit, no other
    character, and a value that fits in 64 bits.
   */
  function Atoi(s: string): (r: Option<int>)
    ensures r.Some? ==> MinInt64 <= r.value <= MaxInt64
    ensures r.Some? ==> forall i :: 0 <= i < |s| ==> IsDigit(s[i]) || (i == 0 && (s[i] == '+' || s[i] == '-'))
  {
    if |s| > 0 && (s[0] == '+' || s[0] == '-') then
      if !AllDigits(s[1..]) then None
      else
        var magnitude: int := DigitsValue(s[1..]);
        var n: int := if s[0] == '-' then -magnitude else magnitude;
        if MinInt64 <= n <= MaxInt64 then Some(n) else None
    else if !AllDigits(s) then None
    else
      var n := DigitsValue(s);
      if n <= MaxInt64 then Some(n) else None
  }

  function DigitChar(d: nat): (c: char)
    requires d < 10
    ensures IsDigit(c) && c as int - '0' as int == d
  {
    ('0' as int + d) as char
  }

  /** The shortest decimal digits of `n`. */
  function NatToString(n: nat): (r: string)
    ensures AllDigits(r) && DigitsValue(r) == n
  {
    if n < 10 then [DigitChar(n)]
    else
      var front := NatToString(n / 10);
      var r := front + [DigitChar(n % 10)];
      assert r[..|r| - 1] == front;
      r
  }

  /** Decimal text of `n`, with a leading `-` when negative. */
  function IntToString(n: int): (r: string)
    ensures |r| > 0
    ensures forall i :: 0 <= i < |r| ==> IsDigit(r[i]) || (i == 0 && r[i] == '-')
  {
    if n < 0 then "-" + NatToString(-n) else NatToString(n)
  }

  // ---- Segments -----------------------------------------------------------

  /** The pieces between the `/` characters; a text without `/` is one piece. */
  function Split(s: string): (r: seq<string>)
    ensures |r| >= 1
  {
    if s == [] then [""]
    else
      var rest := Split(s[1..]);
      if s[0] == '/' then [""] + rest else [[s[0]] + rest[0]] + rest[1..]
  }

  /** The pieces with `/` between them. */
  function Join(parts: seq<string>): string
    requires |parts| >= 1
  {
    if |parts| == 1 then parts[0] else parts[0] + "/" + Join(parts[1..])
  }

  predicate EndsWithMark(s: string)
  {
    |s| > 0 && s[|s| - 1] == '?'
  }

  /** The position of the first `=`. */
  function FirstEquals(s: string): (i: nat)
    requires '=' in s
    ensures i < |s| && s[i] == '=' && '=' !in s[..i]
  {
    if s[0] == '=' then 0
    else
      assert '=' in s[1..] by { var j :| 0 <= j < |s| && s[j] == '='; assert s[1..][j - 1] == '='; }
      var i := 1 + FirstEquals(s[1..]);
      assert s[..i] == [s[0]] + s[1..][..i - 1];
      i
  }

  /**
    One segment, given whether it is the last one and whether an earlier
    segment was marked optional; yields the token and the optional flag
    for the segments after it.
   */
  function ParseSegment(seg: string, isLast: bool, optional: bool): (Token, bool)
  {
    var text := Unescape(seg);
    if isLast && text == "-" then (AfterLast, optional)
    else match Atoi(text)
      case Some(n) => (Index(n, []), optional)
      case None =>
        var marked := EndsWithMark(text);
        var opt := optional || marked;
        var body := if marked then text[..|text| - 1] else text;
        if '=' in body then
          var i := FirstEquals(body);
          (Matching(body[..i], body[i + 1..], opt, []), opt)
        else (Key(body, opt), opt)
  }

  /** The segments after the leading `/`, one token each. */
  function ParseSegments(segs: seq<string>, optional: bool): (ts: seq<Token>)
    ensures |ts| == |segs|
    ensures forall j :: 0 <= j < |ts| ==> !ts[j].Root? && !ts[j].Wildcard?
    ensures forall j :: 0 <= j < |ts| && ts[j].AfterLast? ==> j == |ts| - 1
  {
    if segs == [] then []
    else
      var (t, opt) := ParseSegment(segs[0], |segs| == 1, optional);
      [t] + ParseSegments(segs[1..], opt)
  }

  /** Parse pointer text; the only malformed text is one that neither is empty nor starts with `/`. */
  function Parse(s: string): (r: Result<Pointer>)
    ensures r.Err? <==> s != "" && s[0] != '/'
    ensures r.Err? ==> r.error == ParseError("Expected to start with '/'")
    ensures r.Ok? ==> forall j :: 1 <= j < |r.value| ==> !r.value[j].Root? && !r.value[j].Wildcard?
  {
    if s == "" then Result<Pointer>.Ok([Root])
    else if s[0] != '/' then Err(ParseError("Expected to start with '/'"))
    else Result<Pointer>.Ok([Root] + ParseSegments(Split(s[1..]), false))
  }

  // ---- Serialising --------------------------------------------------------

  /** Key and matching tokens that are optional. */
  predicate MarkedOptional(t: Token)
  {
    (t.Key? || t.Matching?) && t.optional
  }

  /** `?` goes on the first optional segment only: parsing carries it forward. */
  function Mark(t: Token, seen: bool): string
  {
    if MarkedOptional(t) && !seen then "?" else ""
  }

  function RenderToken(t: Token, seen: bool): (r: string)
    ensures '/' !in r
  {
    match t
    case Root => ""
    case Key(k, _) => Escape(k) + Mark(t, seen)
    case Index(n, _) => IntToString(n)
    case AfterLast => "-"
    case Matching(k, v, _, _) => Escape(k) + ("=" + (Escape(v) + Mark(t, seen)))
    case Wildcard => "*"
  }

  function Render(ts: seq<Token>, seen: bool): (r: seq<string>)
    ensures |r| == |ts|
    ensures forall j :: 0 <= j < |r| ==> '/' !in r[j]
  {
    if ts == [] then []
    else [RenderToken(ts[0], seen)] + Render(ts[1..], seen || MarkedOptional(ts[0]))
  }

  /** The text of a pointer: the root is the empty segment before the first `/`. */
  function String(p: Pointer): string
  {
    Join(Render(p, false))
  }
}
