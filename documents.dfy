/**
  Decoded JSON documents and the key paths that address entries in them.

  A key path is what the handler's collectKeys writes: dot-separated segments,
  each a field name `name` or, for an object held in an array, `name[i]`. Here
  a path is first a sequence of segments (`Addr`) and `Path` renders it as the
  handler's string.
 */
module Documents {
  import opened Text

  /** A decoded JSON value: what encoding/json produces for `any`. */
  datatype Json =
    | Object(fields: map<string, Json>)
    | Array(items: seq<Json>)
    | Str(text: string)
    | Num(number: real)
    | Bool(truth: bool)
    | Null

  /** One segment of a key path: a field, or element `index` of the array under field `name`. */
  datatype Seg = Key(name: string) | Elem(name: string, index: nat)

  type Addr = seq<Seg>

  /**
    A key the handler's dotted paths can carry unambiguously: the paths are
    split on `.` and segments are read as `name[i]`, so a key holding `.`, `[`
    or `]` would be misread; and the JSONPath reading of a path gives an empty
    segment (the `..` of recursive descent) and a `*` segment (a wildcard)
    meanings of their own.
   */
  predicate SafeKey(k: string) {
    k != "" && k != "*" && '.' !in k && '[' !in k && ']' !in k
  }

  /** Every key at every depth is safe. */
  predicate WellKeyed(j: Json) {
    match j
    case Object(m) => forall k :: k in m ==> SafeKey(k) && WellKeyed(m[k])
    case Array(a) => forall i :: 0 <= i < |a| ==> WellKeyed(a[i])
    case _ => true
  }

  /**
    A top-level document whose paths are unambiguous. Its keys are safe, so
    none is empty (collectKeys treats an empty prefix as "at the top", and the
    children of a top-level "" key would get top-level paths); and none starts
    with `$`, which deleteJSONPath takes for the JSONPath root marker.
   */
  predicate WellKeyedRoot(root: map<string, Json>) {
    WellKeyed(Object(root)) && forall k :: k in root ==> k[0] != '$'
  }

  /** The text of one segment, as collectKeys writes it. */
  function RenderSeg(s: Seg): string {
    match s
    case Key(k) => k
    case Elem(k, i) => k + IndexGroup(i)
  }

  /** The rendered text of each segment, in order. */
  function Segments(a: Addr): seq<string> {
    seq(|a|, i requires 0 <= i < |a| => RenderSeg(a[i]))
  }

  /** The dotted path string of an address. */
  function Path(a: Addr): string
    requires |a| >= 1
  {
    Join(Segments(a), '.')
  }

  /**
    The addresses collectKeys reports for a value: one per key of an object,
    continuing into object values and into the objects held directly in array
    values. Scalars and arrays held in arrays add nothing.
   */
  ghost predicate Collectible(j: Json, a: Addr)
    decreases j
  {
    j.Object? && |a| >= 1 &&
    match a[0]
    case Key(k) =>
      k in j.fields && (|a| == 1 || (j.fields[k].Object? && Collectible(j.fields[k], a[1..])))
    case Elem(k, i) =>
      && k in j.fields && j.fields[k].Array? && i < |j.fields[k].items|
      && j.fields[k].items[i].Object? && |a| >= 2 && Collectible(j.fields[k].items[i], a[1..])
  }

  /**
    `b` is a proper ancestor of `a`: deleting the entry `b` names removes the
    entry `a` names along with it. The last segment of `b` is a key; in `a` the
    same position may be that key or an element of the array under it.
   */
  predicate Above(b: Addr, a: Addr) {
    && 1 <= |b| < |a|
    && b[..|b| - 1] == a[..|b| - 1]
    && b[|b| - 1].Key?
    && a[|b| - 1].name == b[|b| - 1].name
  }

  lemma {:induction false} CollectibleEndsWithKey(j: Json, a: Addr)
    requires Collectible(j, a)
    ensures a[|a| - 1].Key?
    decreases j
  {
    match a[0]
    case Key(k) =>
      if |a| > 1 {
        CollectibleEndsWithKey(j.fields[k], a[1..]);
      }
    case Elem(k, i) =>
      CollectibleEndsWithKey(j.fields[k].items[i], a[1..]);
  }

  lemma {:induction false} CollectibleSafe(j: Json, a: Addr)
    requires Collectible(j, a) && WellKeyed(j)
    ensures forall i :: 0 <= i < |a| ==> SafeKey(a[i].name)
    decreases j
  {
    match a[0]
    case Key(k) =>
      if |a| > 1 {
        CollectibleSafe(j.fields[k], a[1..]);
        assert forall i :: 1 <= i < |a| ==> a[i] == a[1..][i - 1];
      }
    case Elem(k, i) =>
      CollectibleSafe(j.fields[k].items[i], a[1..]);
      assert forall i :: 1 <= i < |a| ==> a[i] == a[1..][i - 1];
  }

  // ---------------------------------------------------------------------------
  // How collectKeys builds a path from its prefix
  // ---------------------------------------------------------------------------

  lemma PathOne(s: Seg)
    ensures Path([s]) == RenderSeg(s)
  {
  }

  /** Appending a segment to a path appends `.` and the segment's text. */
  lemma PathSnoc(base: Addr, s: Seg)
    requires |base| >= 1
    ensures Path(base + [s]) == Path(base) + "." + RenderSeg(s)
  {
    var ss := Segments(base + [s]);
    assert ss[..|ss| - 1] == Segments(base);
  }

  /** The path of `name[i]` is the path of `name` followed by `[i]`. */
  lemma PathElem(base: Addr, k: string, i: nat)
    ensures Path(base + [Elem(k, i)]) == Path(base + [Key(k)]) + IndexGroup(i)
  {
    if |base| == 0 {
      PathOne(Elem(k, i));
      PathOne(Key(k));
      assert base + [Key(k)] == [Key(k)];
      assert base + [Elem(k, i)] == [Elem(k, i)];
    } else {
      PathSnoc(base, Elem(k, i));
      PathSnoc(base, Key(k));
    }
  }
}
