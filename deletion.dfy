/**
  deleteJSONPath: remove the entry a dotted path names from its parent object.

  The handler resolves the parent with a JSONPath library; here the parent
  segments are walked directly, each `name` or `name[digits]`, and the walk
  fails on a missing key, an array index out of range, or a value of the wrong
  kind on the way. JSONPath gives a `$` at the start of a key, an empty segment
  (recursive descent) and a `*` segment (a wildcard) meanings of their own; the
  walk reads every segment as a plain name, so it stands for the library's
  lookup only on paths free of those, which are the paths the handler builds
  from a document whose keys are safe (`WellKeyedRoot`).
 */
module Deletion {
  import opened Results
  import opened Text
  import opened Documents

  datatype DeleteError =
    | BadSegment(segment: string)
    | MissingKey(name: string)
    | NotAnObject
    | NotAnArray(name: string)
    | NoElement(name: string, index: nat)

  /** The segment a piece of a path denotes, if it is `name` or `name[digits]`. */
  function ParseSeg(s: string): Option<Seg> {
    if |s| >= 1 && s[|s| - 1] == ']' then
      var p := LastIndexOf(s[..|s| - 1], '[');
      if p >= 0 && SafeKey(s[..p]) && p + 1 < |s| - 1 && AllDigits(s[p + 1..|s| - 1]) then
        Some(Elem(s[..p], ParseNat(s[p + 1..|s| - 1])))
      else None
    else if '[' !in s && ']' !in s then Some(Key(s))
    else None
  }

  function ParseSegs(ss: seq<string>): (r: Option<seq<Seg>>)
    ensures r.Some? ==> |r.value| == |ss|
  {
    if |ss| == 0 then Some([])
    else match (ParseSeg(ss[0]), ParseSegs(ss[1..]))
      case (Some(s), Some(rest)) => Some([s] + rest)
      case _ => None
  }

  /** Reading back the text of a segment with a safe name gives the segment. */
  lemma ParseRenderSeg(s: Seg)
    requires SafeKey(s.name)
    ensures ParseSeg(RenderSeg(s)) == Some(s)
  {
    match s
    case Key(k) =>
    case Elem(k, i) =>
      var digits := ShowNat(i);
      assert RenderSeg(s) == k + "[" + digits + "]";
      ParseElemText(k, digits);
      ParseShowNat(i);
  }

  /** `k[digits]` with a safe name `k` reads back as element `digits` of `k`. */
  lemma ParseElemText(k: string, digits: string)
    requires SafeKey(k) && Numeral(digits)
    ensures ParseSeg(k + "[" + digits + "]") == Some(Elem(k, ParseNat(digits)))
  {
    var t := k + "[" + digits + "]";
    var body := t[..|t| - 1];
    assert body == k + "[" + digits;
    var p := LastIndexOf(body, '[');
    assert body[|k|] == '[';
    assert body[|k| + 1..] == digits;
    assert '[' !in digits by {
      forall c | c in digits ensures c != '[' {
        var n :| 0 <= n < |digits| && digits[n] == c;
        assert IsDigit(digits[n]);
      }
    }
    assert p == |k|;
    assert t[..p] == k;
    assert t[p + 1..|t| - 1] == digits;
  }

  lemma ParseRenderSegs(a: Addr)
    requires forall i :: 0 <= i < |a| ==> SafeKey(a[i].name)
    ensures ParseSegs(Segments(a)) == Some(a)
  {
    if |a| > 0 {
      var ss := Segments(a);
      assert |ss| == |a| && ss[0] == RenderSeg(a[0]);
      assert ss[1..] == Segments(a[1..]) by {
        forall t | 0 <= t < |a| - 1 ensures ss[1..][t] == Segments(a[1..])[t] {
          assert a[1..][t] == a[t + 1];
        }
      }
      ParseRenderSeg(a[0]);
      ParseRenderSegs(a[1..]);
      assert a == [a[0]] + a[1..];
    }
  }

  /** The value one segment leads to from `j`, if there is one. */
  function Step(j: Json, s: Seg): Option<Json> {
    if !j.Object? || s.name !in j.fields then None
    else match s
      case Key(k) => Some(j.fields[k])
      case Elem(k, i) =>
        var v := j.fields[k];
        if v.Array? && i < |v.items| then Some(v.items[i]) else None
  }

  /** A step leads into a strictly smaller value. */
  lemma StepSmaller(j: Json, s: Seg)
    requires Step(j, s).Some?
    ensures Step(j, s).value < j
  {
    if s.Elem? {
      assert j.fields[s.name].items[s.index] < j.fields[s.name];
    }
  }

  /** The value an address leads to, if the walk can proceed. */
  function Lookup(j: Json, a: Addr): Option<Json>
    decreases a
  {
    if a == [] then Some(j)
    else match Step(j, a[0])
      case None => None
      case Some(c) => Lookup(c, a[1..])
  }

  /** An object without `key`; any other value as it is. */
  function Without(j: Json, key: string): (r: Json)
    ensures j.Object? ==> r.Object? && key !in r.fields && r.fields.Keys == j.fields.Keys - {key}
    ensures j.Object? ==> forall k :: k in r.fields ==> r.fields[k] == j.fields[k]
    ensures !j.Object? ==> r == j
  {
    match j
    case Object(m) => Object(m - {key})
    case _ => j
  }

  /**
    Walk `parent` from `j` and remove `key` from the object found there; a
    parent that is not an object is left as it is, without an error. The walk
    fails exactly when the parent cannot be looked up.
   */
  function RemoveAt(j: Json, parent: Addr, key: string): (r: Result<Json, DeleteError>)
    ensures r.Ok? <==> Lookup(j, parent).Some?
    ensures r.Ok? ==> Lookup(r.value, parent) == Some(Without(Lookup(j, parent).value, key))
    ensures r.Ok? && j.Object? ==> r.value.Object?
    decreases parent
  {
    if parent == [] then Ok(Without(j, key))
    else match j
      case Object(m) =>
        var s := parent[0];
        if s.name !in m then Err(MissingKey(s.name))
        else (match s
          case Key(k) =>
            var child :- RemoveAt(m[k], parent[1..], key);
            Ok(Object(m[k := child]))
          case Elem(k, i) =>
            if !m[k].Array? then Err(NotAnArray(k))
            else if i >= |m[k].items| then Err(NoElement(k, i))
            else
              var child :- RemoveAt(m[k].items[i], parent[1..], key);
              Ok(Object(m[k := Array(m[k].items[i := child])])))
      case _ => Err(NotAnObject)
  }

  /** `j` with the value that segment `s` leads to replaced by `v`. */
  function Put(j: Json, s: Seg, v: Json): Json
    requires Step(j, s).Some?
  {
    match s
    case Key(k) => Object(j.fields[k := v])
    case Elem(k, i) => Object(j.fields[k := Array(j.fields[k].items[i := v])])
  }

  /** A removal below the first segment is the removal in the child, put back in place. */
  lemma RemoveAtStep(j: Json, parent: Addr, key: string)
    requires parent != [] && Step(j, parent[0]).Some?
    ensures var inner := RemoveAt(Step(j, parent[0]).value, parent[1..], key);
      RemoveAt(j, parent, key) == if inner.Ok? then Ok(Put(j, parent[0], inner.value)) else Err(inner.error)
  {
  }

  /** Two segments that lead to different values of one object. */
  predicate Apart(s: Seg, t: Seg) {
    s.name != t.name || (s.Elem? && t.Elem? && s.index != t.index)
  }

  /** `b` and `a` part ways: they agree up to some segment and there lead to different values. */
  predicate Diverge(b: Addr, a: Addr) {
    exists n :: 0 <= n < |a| && n < |b| && a[..n] == b[..n] && Apart(a[n], b[n])
  }

  /** One step of a removal changes only the value on its own segment. */
  lemma StepElsewhere(j: Json, parent: Addr, key: string, t: Seg)
    requires RemoveAt(j, parent, key).Ok?
    requires Apart((parent + [Key(key)])[0], t)
    ensures Step(RemoveAt(j, parent, key).value, t) == Step(j, t)
  {
    var r := RemoveAt(j, parent, key).value;
    if parent != [] {
      var m := j.fields;
      var s := parent[0];
      assert (parent + [Key(key)])[0] == s;
      match s
      case Key(k) =>
        assert r.fields == m[k := RemoveAt(m[k], parent[1..], key).value];
      case Elem(k, i) =>
        var items := m[k].items;
        assert r.fields == m[k := Array(items[i := RemoveAt(items[i], parent[1..], key).value])];
    }
  }

  /** Along its own first segment, a removal continues one level down. */
  lemma StepAlong(j: Json, parent: Addr, key: string)
    requires RemoveAt(j, parent, key).Ok? && parent != []
    ensures Step(j, parent[0]).Some?
    ensures var c := Step(j, parent[0]).value;
      && RemoveAt(c, parent[1..], key).Ok?
      && Step(RemoveAt(j, parent, key).value, parent[0]) == Some(RemoveAt(c, parent[1..], key).value)
  {
  }

  /** Removing an entry leaves every value at an address that parts ways with it as it was. */
  lemma RemoveAtElsewhere(j: Json, parent: Addr, key: string, b: Addr)
    requires RemoveAt(j, parent, key).Ok?
    requires Diverge(b, parent + [Key(key)])
    ensures Lookup(RemoveAt(j, parent, key).value, b) == Lookup(j, b)
  {
    var a := parent + [Key(key)];
    var n :| 0 <= n < |a| && n < |b| && a[..n] == b[..n] && Apart(a[n], b[n]);
    RemoveAtApart(j, parent, key, b, n);
  }

  /** The same, with the segment where the two addresses part ways given as `n`. */
  lemma {:induction false} RemoveAtApart(j: Json, parent: Addr, key: string, b: Addr, n: nat)
    requires RemoveAt(j, parent, key).Ok?
    requires PartAt(b, parent + [Key(key)], n)
    ensures Lookup(RemoveAt(j, parent, key).value, b) == Lookup(j, b)
    decreases parent
  {
    if n == 0 {
      StepElsewhere(j, parent, key, b[0]);
    } else {
      PartAtTail(b, parent, key, n);
      var s := parent[0];
      StepAlong(j, parent, key);
      var c := Step(j, s).value;
      var r := RemoveAt(j, parent, key).value;
      var c' := RemoveAt(c, parent[1..], key).value;
      RemoveAtApart(c, parent[1..], key, b[1..], n - 1);
      LookupStep(r, b, c');
      LookupStep(j, b, c);
    }
  }

  /** `b` and `a` agree before segment `n` and part ways there. */
  predicate PartAt(b: Addr, a: Addr, n: nat) {
    n < |a| && n < |b| && a[..n] == b[..n] && Apart(a[n], b[n])
  }

  /** Parting ways below the first segment is parting ways one segment later in the tails. */
  lemma PartAtTail(b: Addr, parent: Addr, key: string, n: nat)
    requires 0 < n && PartAt(b, parent + [Key(key)], n)
    ensures parent != [] && b[0] == parent[0]
    ensures PartAt(b[1..], parent[1..] + [Key(key)], n - 1)
  {
    var a := parent + [Key(key)];
    assert a[..n][0] == b[..n][0];
    TailOfSnoc(parent, Key(key));
    assert a[1..][..n - 1] == b[1..][..n - 1];
    assert a[1..][n - 1] == a[n] && b[1..][n - 1] == b[n];
  }

  lemma TailOfSnoc(p: Addr, x: Seg)
    requires p != []
    ensures (p + [x])[1..] == p[1..] + [x]
  {
  }

  /** A lookup takes its first step and goes on from there. */
  lemma LookupStep(j: Json, b: Addr, c: Json)
    requires b != [] && Step(j, b[0]) == Some(c)
    ensures Lookup(j, b) == Lookup(c, b[1..])
  {
  }

  /**
    deleteJSONPath: split off the last segment of `path` as the key, walk the
    rest as the parent, and remove the key from the parent when that is an
    object. The handler only calls it on paths with at least one `.`; on a
    path without one its slice arithmetic panics.
   */
  function DeleteJsonPath(root: map<string, Json>, path: string): (r: Result<map<string, Json>, DeleteError>)
    requires '.' in path
    ensures r.Ok? ==> r.value.Keys <= root.Keys
  {
    var dot := LastIndexOf(path, '.');
    var parentPath := path[..dot];
    var key := path[dot + 1..];
    match ParseSegs(SplitOn(parentPath, '.'))
    case None => Err(BadSegment(parentPath))
    case Some(parent) =>
      match RemoveAt(Object(root), parent, key)
      case Ok(v) =>
        assert parent != [] ==> v.fields.Keys == root.Keys by {
          if parent != [] {
            var s := parent[0];
            assert s.name in root;
          }
        }
        Ok(v.fields)
      case Err(e) => Err(e)
  }

  /** A rendered segment with a safe name holds no `.`. */
  lemma RenderSegDotFree(s: Seg)
    requires SafeKey(s.name)
    ensures '.' !in RenderSeg(s)
  {
    if s.Elem? {
      var digits := ShowNat(s.index);
      forall t | 0 <= t < |digits| ensures digits[t] != '.' {
        assert IsDigit(digits[t]);
      }
      assert RenderSeg(s) == s.name + "[" + digits + "]";
    }
  }

  /** The parent of a path splits back into the segments it was joined from. */
  lemma ParentOfPath(a: Addr)
    requires |a| >= 2
    requires forall i :: 0 <= i < |a| ==> SafeKey(a[i].name)
    ensures var ss := Segments(a); var k := |Join(ss[..|a| - 1], '.')|;
      && LastIndexOf(Path(a), '.') == k
      && ParseSegs(SplitOn(Path(a)[..k], '.')) == Some(a[..|a| - 1])
      && Path(a)[k + 1..] == RenderSeg(a[|a| - 1])
  {
    var ss := Segments(a);
    var n := |a|;
    RenderSegDotFree(a[n - 1]);
    JoinLastIndex(ss, '.');
    var init := a[..n - 1];
    var front := ss[..n - 1];
    assert front == Segments(init);
    forall i | 0 <= i < |init|
      ensures '.' !in front[i]
    {
      RenderSegDotFree(init[i]);
    }
    SplitJoin(front, '.');
    ParseRenderSegs(init);
  }

  /**
    On the path of a collected address the string-level deletion is the walk
    of the address: its first segments are the parent, its last the key.
   */
  lemma DeletePathOfAddr(root: map<string, Json>, a: Addr)
    requires |a| >= 2 && a[|a| - 1].Key?
    requires forall i :: 0 <= i < |a| ==> SafeKey(a[i].name)
    ensures '.' in Path(a)
    ensures var r := RemoveAt(Object(root), a[..|a| - 1], a[|a| - 1].name);
      DeleteJsonPath(root, Path(a)) == if r.Ok? then Ok(r.value.fields) else Err(r.error)
  {
    ParentOfPath(a);
    var k := LastIndexOf(Path(a), '.');
    assert Path(a)[k] == '.';
  }
}
