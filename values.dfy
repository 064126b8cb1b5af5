/**
  The dynamic document: what a YAML/JSON loader produces. Mapping keys are
  scalars (a Go map keyed by `interface{}` cannot hold a slice or a map as a
  key), sequences are ordered, and every subtree belongs to exactly one parent.
 */
module Values {

  datatype Scalar = Null | Bool(b: bool) | Int(n: int) | Str(s: string)

  datatype Value =
    | Atom(scalar: Scalar)
    | Seq(items: seq<Value>)
    | Map(entries: map<Scalar, Value>)

  /** One step from a container to one of its children. */
  datatype Step = KeyStep(key: Scalar) | IndexStep(index: nat)

  /** A slot in a document, as the list of steps from the root. */
  type Location = seq<Step>

  /** The subtree at `loc`, or null when `loc` leads nowhere. */
  function At(doc: Value, loc: Location): Value
    decreases |loc|
  {
    if loc == [] then doc
    else match loc[0]
      case KeyStep(k) =>
        if doc.Map? && k in doc.entries then At(doc.entries[k], loc[1..]) else Atom(Null)
      case IndexStep(j) =>
        if doc.Seq? && j < |doc.items| then At(doc.items[j], loc[1..]) else Atom(Null)
  }

  /** True when every step of `loc` exists in `doc`. */
  predicate Reaches(doc: Value, loc: Location)
    decreases |loc|
  {
    loc == [] ||
    match loc[0]
      case KeyStep(k) => doc.Map? && k in doc.entries && Reaches(doc.entries[k], loc[1..])
      case IndexStep(j) => doc.Seq? && j < |doc.items| && Reaches(doc.items[j], loc[1..])
  }

  /** The document with the slot at `loc` rebound to `v`; unchanged when `loc` leads nowhere. */
  function SetAt(doc: Value, loc: Location, v: Value): Value
    decreases |loc|
  {
    if loc == [] then v
    else match loc[0]
      case KeyStep(k) =>
        if doc.Map? && k in doc.entries
        then Map(doc.entries[k := SetAt(doc.entries[k], loc[1..], v)])
        else doc
      case IndexStep(j) =>
        if doc.Seq? && j < |doc.items|
        then Seq(doc.items[j := SetAt(doc.items[j], loc[1..], v)])
        else doc
  }

  /** Writing a slot that exists and reading it back gives what was written. */
  lemma {:induction false} AtSetAt(doc: Value, loc: Location, v: Value)
    requires Reaches(doc, loc)
    ensures Reaches(SetAt(doc, loc, v), loc)
    ensures At(SetAt(doc, loc, v), loc) == v
    decreases |loc|
  {
    if loc != [] {
      match loc[0]
      case KeyStep(k) => AtSetAt(doc.entries[k], loc[1..], v);
      case IndexStep(j) => AtSetAt(doc.items[j], loc[1..], v);
    }
  }

  /** A write below a location keeps that location reachable and rebinds it to the updated subtree. */
  lemma {:induction false} SetAtExtend(doc: Value, loc: Location, rest: Location, v: Value)
    requires Reaches(doc, loc)
    ensures SetAt(doc, loc + rest, v) == SetAt(doc, loc, SetAt(At(doc, loc), rest, v))
    decreases |loc|
  {
    if loc != [] {
      assert (loc + rest)[0] == loc[0];
      assert (loc + rest)[1..] == loc[1..] + rest;
      match loc[0]
      case KeyStep(k) => SetAtExtend(doc.entries[k], loc[1..], rest, v);
      case IndexStep(j) => SetAtExtend(doc.items[j], loc[1..], rest, v);
    } else {
      assert loc + rest == rest;
    }
  }

  /** Reading below a location is reading inside the subtree found there. */
  lemma {:induction false} AtExtend(doc: Value, loc: Location, rest: Location)
    requires Reaches(doc, loc)
    ensures At(doc, loc + rest) == At(At(doc, loc), rest)
    ensures Reaches(doc, loc + rest) == Reaches(At(doc, loc), rest)
    decreases |loc|
  {
    if loc != [] {
      assert (loc + rest)[0] == loc[0];
      assert (loc + rest)[1..] == loc[1..] + rest;
      match loc[0]
      case KeyStep(k) => AtExtend(doc.entries[k], loc[1..], rest);
      case IndexStep(j) => AtExtend(doc.items[j], loc[1..], rest);
    } else {
      assert loc + rest == rest;
    }
  }

  /** Two locations part ways: at some step they name different children. */
  predicate Diverge(l1: Location, l2: Location)
    decreases |l1|
  {
    l1 != [] && l2 != [] && (l1[0] != l2[0] || Diverge(l1[1..], l2[1..]))
  }

  /** Writing one slot leaves every slot off its path as it was. */
  lemma {:induction false} SetAtFrame(doc: Value, loc: Location, other: Location, v: Value)
    requires Diverge(loc, other)
    ensures At(SetAt(doc, loc, v), other) == At(doc, other)
    decreases |loc|
  {
    if loc[0] == other[0] {
      match loc[0]
      case KeyStep(k) =>
        if doc.Map? && k in doc.entries {
          SetAtFrame(doc.entries[k], loc[1..], other[1..], v);
        }
      case IndexStep(j) =>
        if doc.Seq? && j < |doc.items| {
          SetAtFrame(doc.items[j], loc[1..], other[1..], v);
        }
    }
  }

  /** A reachable location has reachable prefixes. */
  lemma {:induction false} ReachesPrefix(doc: Value, loc: Location, n: nat)
    requires Reaches(doc, loc) && n <= |loc|
    ensures Reaches(doc, loc[..n])
    decreases n
  {
    if n > 0 {
      assert loc[..n][0] == loc[0];
      assert loc[..n][1..] == loc[1..][..n - 1];
      match loc[0]
      case KeyStep(k) => ReachesPrefix(doc.entries[k], loc[1..], n - 1);
      case IndexStep(j) => ReachesPrefix(doc.items[j], loc[1..], n - 1);
    }
  }

  /** A second write to a slot overrides the first. */
  lemma {:induction false} SetAtTwice(doc: Value, loc: Location, v: Value, w: Value)
    ensures SetAt(SetAt(doc, loc, v), loc, w) == SetAt(doc, loc, w)
    decreases |loc|
  {
    if loc != [] {
      match loc[0]
      case KeyStep(k) =>
        if doc.Map? && k in doc.entries {
          SetAtTwice(doc.entries[k], loc[1..], v, w);
        }
      case IndexStep(j) =>
        if doc.Seq? && j < |doc.items| {
          SetAtTwice(doc.items[j], loc[1..], v, w);
        }
    }
  }
}
