/**
  What a type-scoped policy `Type.field` removes from a document.

  processJsonData walks every key path collectKeys reports and deletes the
  paths whose last segment is `field` and whose second-last segment is the
  schema key chosen for `Type`, both compared after trimming and after
  dropping `[i]` indices. Two descriptions of the outcome are given here:

    * `Prune(j, D)`: the document with the entries at the addresses in `D`
      deleted; the handler's loop builds it one deletion at a time.
    * `Scrub(j, rule, None)`: one recursive pass that drops the field the
      rule names from every object held directly under a key named as the
      owner, or in the array under such a key, at any depth.

  `PruneScrub` shows the two agree on the addresses the rule matches, and
  `RemovePruned` shows that each single deletion of the loop moves from one
  `Prune` to the next, whatever order the paths come in.
 */
module Redaction {
  import opened Results
  import opened Text
  import opened Documents
  import opened Deletion

  /** A key-path segment as the handler compares it: trimmed, with `[i]` groups dropped. */
  function Canon(seg: string): string {
    StripIndices(TrimSpace(seg))
  }

  /** A key written as collectKeys writes it is its own canonical form, bare or indexed. */
  lemma CanonOfCleanKey(k: string, i: nat)
    requires SafeKey(k) && (k == [] || (!IsSpace(k[0]) && !IsSpace(k[|k| - 1])))
    ensures Canon(k) == k
    ensures Canon(RenderSeg(Elem(k, i))) == k
  {
    CanonOfBareKey(k);
    CanonOfIndexedKey(k, i);
  }

  lemma CanonOfBareKey(k: string)
    requires '[' !in k && (k == [] || (!IsSpace(k[0]) && !IsSpace(k[|k| - 1])))
    ensures Canon(k) == k
  {
    TrimSpaceNoEdges(k);
    StripNoBracket(k);
  }

  lemma CanonOfIndexedKey(k: string, i: nat)
    requires '[' !in k && (k == [] || !IsSpace(k[0]))
    ensures Canon(RenderSeg(Elem(k, i))) == k
  {
    IndexedNoEdges(k, i);
    StripIndexedKey(k, i);
  }

  /** A type-scoped policy once its owner key is chosen: drop `field` under `owner`. */
  datatype Rule = Rule(owner: string, field: string)

  /**
    The handler's test on a collected address: the last segment is the field
    and the one before it is the owner. `outer` is the text of the segment
    just above `a`, when `a` is taken relative to an inner object.
   */
  predicate MatchIn(rule: Rule, outer: Option<string>, a: Addr) {
    && |a| >= 1
    && Canon(RenderSeg(a[|a| - 1])) == rule.field
    && if |a| >= 2 then Canon(RenderSeg(a[|a| - 2])) == rule.owner
       else outer.Some? && Canon(outer.value) == rule.owner
  }

  /** A whole-document address the rule deletes; the handler skips single-segment paths. */
  predicate Matches(rule: Rule, a: Addr) {
    MatchIn(rule, None, a)
  }

  lemma MatchesLong(rule: Rule, a: Addr)
    requires Matches(rule, a)
    ensures |a| >= 2
  {
  }

  /** Seen from one level down, the segment stepped over becomes the outer one. */
  lemma MatchShift(rule: Rule, outer: Option<string>, s: Seg, b: Addr)
    requires |b| >= 1
    ensures MatchIn(rule, outer, [s] + b) == MatchIn(rule, Some(RenderSeg(s)), b)
  {
    var a := [s] + b;
    assert a[|a| - 1] == b[|b| - 1];
    if |b| >= 2 {
      assert a[|a| - 2] == b[|b| - 2];
    } else {
      assert a[|a| - 2] == s;
    }
  }

  // ---------------------------------------------------------------------------
  // Scrub: the declarative outcome
  // ---------------------------------------------------------------------------

  /** The field `k` of an object is dropped: it is the rule's field and the object sits under the owner. */
  predicate Doomed(rule: Rule, outer: Option<string>, k: string) {
    outer.Some? && Canon(outer.value) == rule.owner && Canon(k) == rule.field
  }

  /**
    `j` with the rule's field removed from every object held directly under a
    key named as the owner, or in the array under such a key, at any depth;
    `outer` is the text of the segment that led to `j`.
   */
  function Scrub(j: Json, rule: Rule, outer: Option<string>): (r: Json)
    ensures r.Object? <==> j.Object?
    ensures !j.Object? ==> r == j
    decreases j, 0
  {
    match j
    case Object(m) => Object(map k | k in m && !Doomed(rule, outer, k) :: ScrubChild(m[k], rule, k))
    case _ => j
  }

  /** The value under key `k`, scrubbed: objects directly, arrays element by element. */
  function ScrubChild(v: Json, rule: Rule, k: string): (r: Json)
    ensures r.Object? <==> v.Object?
    ensures r.Array? <==> v.Array?
    ensures v.Array? ==> |r.items| == |v.items|
    decreases v, 1
  {
    match v
    case Object(_) => Scrub(v, rule, Some(k))
    case Array(items) =>
      Array(seq(|items|, i requires 0 <= i < |items| => Scrub(items[i], rule, Some(RenderSeg(Elem(k, i))))))
    case _ => v
  }

  /** The entry whose deletion takes the first `p` segments of `a` along: those segments, the last as a key. */
  function Upto(a: Addr, p: nat): (b: Addr)
    requires 1 <= p <= |a|
    ensures |b| == p && b[p - 1].Key?
  {
    a[..p - 1] + [Key(a[p - 1].name)]
  }

  lemma UptoWhole(a: Addr)
    requires |a| >= 1 && a[|a| - 1].Key?
    ensures Upto(a, |a|) == a
  {
    assert a == a[..|a| - 1] + [a[|a| - 1]];
  }

  /** No entry on the way to `a`, `a` itself included, is one the rule deletes. */
  predicate Spared(rule: Rule, outer: Option<string>, a: Addr) {
    forall p :: 1 <= p <= |a| ==> !MatchIn(rule, outer, Upto(a, p))
  }

  lemma SparedWhole(rule: Rule, outer: Option<string>, a: Addr)
    requires Spared(rule, outer, a) && |a| >= 1 && Upto(a, |a|) == a
    ensures !MatchIn(rule, outer, a)
  {
    assert !MatchIn(rule, outer, Upto(a, |a|));
  }

  lemma SparedShift(rule: Rule, outer: Option<string>, s: Seg, b: Addr)
    requires |b| >= 1
    ensures Spared(rule, outer, [s] + b) <==>
      !MatchIn(rule, outer, [Key(s.name)]) && Spared(rule, Some(RenderSeg(s)), b)
  {
    var a := [s] + b;
    assert Upto(a, 1) == [Key(s.name)];
    forall p | 1 <= p <= |b|
      ensures Upto(a, p + 1) == [s] + Upto(b, p)
      ensures MatchIn(rule, outer, Upto(a, p + 1)) == MatchIn(rule, Some(RenderSeg(s)), Upto(b, p))
    {
      assert a[..p] == [s] + b[..p - 1];
      MatchShift(rule, outer, s, Upto(b, p));
    }
    if Spared(rule, outer, a) {
      forall p | 1 <= p <= |b| ensures !MatchIn(rule, Some(RenderSeg(s)), Upto(b, p)) {
        assert !MatchIn(rule, outer, Upto(a, p + 1));
      }
    }
    if !MatchIn(rule, outer, [Key(s.name)]) && Spared(rule, Some(RenderSeg(s)), b) {
      forall p | 1 <= p <= |a| ensures !MatchIn(rule, outer, Upto(a, p)) {
        if p > 1 {
          assert !MatchIn(rule, Some(RenderSeg(s)), Upto(b, p - 1));
        }
      }
    }
  }

  /** A long address is collectible when its first step leads to an object where the rest is. */
  lemma CollectibleCons(j: Json, a: Addr)
    requires |a| >= 2
    ensures Collectible(j, a) <==>
      j.Object? && Step(j, a[0]).Some? && Step(j, a[0]).value.Object? && Collectible(Step(j, a[0]).value, a[1..])
  {
  }

  /** A step the rule does not cut leads, in the scrubbed value, to the scrubbed child. */
  lemma ScrubStep(j: Json, rule: Rule, outer: Option<string>, s: Seg)
    requires j.Object? && !Doomed(rule, outer, s.name)
    ensures Step(Scrub(j, rule, outer), s).Some? <==> Step(j, s).Some?
    ensures Step(j, s).Some? ==> (Step(Scrub(j, rule, outer), s).value.Object? <==> Step(j, s).value.Object?)
    ensures Step(j, s).Some? && Step(j, s).value.Object? ==>
      Step(Scrub(j, rule, outer), s).value == Scrub(Step(j, s).value, rule, Some(RenderSeg(s)))
  {
    var m := j.fields;
    var k := s.name;
    if k in m {
      var child := ScrubChild(m[k], rule, k);
      assert Scrub(j, rule, outer).fields[k] == child;
      match s
      case Key(_) =>
        assert child.Object? <==> m[k].Object?;
      case Elem(_, i) =>
        assert child.Array? <==> m[k].Array?;
        if m[k].Array? {
          assert |child.items| == |m[k].items|;
          if i < |m[k].items| {
            assert child.items[i] == Scrub(m[k].items[i], rule, Some(RenderSeg(s)));
          }
        }
    }
  }

  /**
    The addresses left after the scrub are exactly the original ones with no
    deleted entry on their way: everything the rule names is gone, and
    nothing else is.
   */
  lemma {:induction false} ScrubSurvivors(j: Json, rule: Rule, outer: Option<string>, a: Addr)
    ensures Collectible(Scrub(j, rule, outer), a) <==> Collectible(j, a) && Spared(rule, outer, a)
    decreases j
  {
    if j.Object? && |a| >= 1 {
      var m := j.fields;
      var s := a[0];
      var k := s.name;
      var sj := Scrub(j, rule, outer);
      assert Upto(a, 1) == [Key(k)];
      assert MatchIn(rule, outer, [Key(k)]) <==> Doomed(rule, outer, k);
      assert k in sj.fields <==> k in m && !Doomed(rule, outer, k);
      if k in m && !Doomed(rule, outer, k) && |a| >= 2 {
        var b := a[1..];
        assert a == [s] + b;
        SparedShift(rule, outer, s, b);
        CollectibleCons(j, a);
        CollectibleCons(sj, a);
        ScrubStep(j, rule, outer, s);
        if Step(j, s).Some? && Step(j, s).value.Object? {
          StepSmaller(j, s);
          ScrubSurvivors(Step(j, s).value, rule, Some(RenderSeg(s)), b);
        }
      }
    }
  }

  /** In particular no address the rule matches survives a whole-document scrub. */
  lemma ScrubLeavesNoMatch(j: Json, rule: Rule, a: Addr)
    requires Collectible(Scrub(j, rule, None), a)
    ensures !Matches(rule, a)
  {
    ScrubSurvivors(j, rule, None, a);
    CollectibleEndsWithKey(Scrub(j, rule, None), a);
    UptoWhole(a);
    SparedWhole(rule, None, a);
  }

  /** Scrubbing keeps keys safe, and keeps the top level free of the empty key. */
  lemma {:induction false} ScrubWellKeyed(j: Json, rule: Rule, outer: Option<string>)
    requires WellKeyed(j)
    ensures WellKeyed(Scrub(j, rule, outer))
    ensures j.Object? ==> Scrub(j, rule, outer).Object? && Scrub(j, rule, outer).fields.Keys <= j.fields.Keys
    decreases j
  {
    match j
    case Object(m) =>
      forall k | k in m && !Doomed(rule, outer, k)
        ensures WellKeyed(ScrubChild(m[k], rule, k))
      {
        match m[k]
        case Object(_) => ScrubWellKeyed(m[k], rule, Some(k));
        case Array(items) =>
          forall i | 0 <= i < |items| ensures WellKeyed(Scrub(items[i], rule, Some(RenderSeg(Elem(k, i))))) {
            ScrubWellKeyed(items[i], rule, Some(RenderSeg(Elem(k, i))));
          }
        case _ =>
      }
    case _ =>
  }

  // ---------------------------------------------------------------------------
  // Prune: the document after deleting a set of addresses
  // ---------------------------------------------------------------------------

  /** The addresses in `D` that start with `s`, with `s` taken off. */
  ghost function Tail(D: set<Addr>, s: Seg): set<Addr> {
    set d: Addr | d in D && |d| >= 2 && d[0] == s :: d[1..]
  }

  lemma TailMember(D: set<Addr>, s: Seg, b: Addr)
    requires |b| >= 1
    ensures b in Tail(D, s) <==> [s] + b in D
  {
    if b in Tail(D, s) {
      var d: Addr :| d in D && |d| >= 2 && d[0] == s && d[1..] == b;
      assert d == [s] + b;
    }
    if [s] + b in D {
      assert ([s] + b)[1..] == b;
    }
  }

  /** Adding a long address to `D` adds its rest to the one tail it starts with. */
  lemma TailAdd(D: set<Addr>, a: Addr, s: Seg)
    requires |a| >= 2
    ensures Tail(D + {a}, s) == if a[0] == s then Tail(D, s) + {a[1..]} else Tail(D, s)
  {
    assert a == [a[0]] + a[1..];
    forall b: Addr | b in Tail(D + {a}, s) ensures |b| >= 1 { }
    forall b: Addr | |b| >= 1
      ensures b in Tail(D + {a}, s) <==> b in (if a[0] == s then Tail(D, s) + {a[1..]} else Tail(D, s))
    {
      TailMember(D + {a}, s, b);
      TailMember(D, s, b);
    }
  }

  /** An address of length one adds nothing to any tail. */
  lemma TailAddShort(D: set<Addr>, a: Addr, s: Seg)
    requires |a| == 1
    ensures Tail(D + {a}, s) == Tail(D, s)
  {
  }

  /** `j` with the entry at every address in `D` deleted, and with it everything below. */
  ghost function Prune(j: Json, D: set<Addr>): (r: Json)
    ensures r.Object? <==> j.Object?
    ensures !j.Object? ==> r == j
    decreases j, 0
  {
    match j
    case Object(m) => Object(map k | k in m && [Key(k)] !in D :: PruneChild(m[k], k, D))
    case _ => j
  }

  ghost function PruneChild(v: Json, k: string, D: set<Addr>): (r: Json)
    ensures r.Array? <==> v.Array?
    ensures v.Array? ==> |r.items| == |v.items|
    decreases v, 1
  {
    match v
    case Object(_) => Prune(v, Tail(D, Key(k)))
    case Array(items) =>
      Array(seq(|items|, i requires 0 <= i < |items| => Prune(items[i], Tail(D, Elem(k, i)))))
    case _ => v
  }

  lemma PruneNothing(j: Json)
    ensures Prune(j, {}) == j
    decreases j, 0
  {
    match j
    case Object(m) =>
      forall k | k in m ensures PruneChild(m[k], k, {}) == m[k] {
        PruneChildNothing(m[k], k);
      }
    case _ =>
  }

  lemma PruneChildNothing(v: Json, k: string)
    ensures PruneChild(v, k, {}) == v
    decreases v, 1
  {
    match v
    case Object(_) =>
      assert Tail({}, Key(k)) == {};
      PruneNothing(v);
    case Array(items) =>
      forall i | 0 <= i < |items| ensures Prune(items[i], Tail({}, Elem(k, i))) == items[i] {
        assert Tail({}, Elem(k, i)) == {};
        PruneNothing(items[i]);
      }
    case _ =>
  }

  /** A child depends on `D` only through the tails under its own key. */
  lemma PruneChildTails(v: Json, k: string, D: set<Addr>, E: set<Addr>)
    requires Tail(D, Key(k)) == Tail(E, Key(k))
    requires forall i: nat :: Tail(D, Elem(k, i)) == Tail(E, Elem(k, i))
    ensures PruneChild(v, k, D) == PruneChild(v, k, E)
  {
    match v
    case Array(items) =>
      forall i | 0 <= i < |items| ensures Prune(items[i], Tail(D, Elem(k, i))) == Prune(items[i], Tail(E, Elem(k, i))) {
        assert Tail(D, Elem(k, i)) == Tail(E, Elem(k, i));
      }
    case _ =>
  }

  /**
    Adding a long address to `D` changes at most the child on its first
    segment's key; nothing changes if that key is deleted already.
   */
  lemma PruneAdd(j: Json, D: set<Addr>, a: Addr)
    requires j.Object? && |a| >= 2 && a[0].name in j.fields
    ensures var k := a[0].name;
      && Prune(j, D + {a}).Object?
      && if [Key(k)] in D then Prune(j, D + {a}) == Prune(j, D)
         else Prune(j, D + {a}).fields == Prune(j, D).fields[k := PruneChild(j.fields[k], k, D + {a})]
  {
    var m := j.fields;
    var k := a[0].name;
    forall k' | k' in m ensures [Key(k')] in D + {a} <==> [Key(k')] in D {
      assert |[Key(k')]| == 1;
    }
    forall k' | k' in m && k' != k ensures PruneChild(m[k'], k', D + {a}) == PruneChild(m[k'], k', D) {
      TailAdd(D, a, Key(k'));
      forall i: nat ensures Tail(D + {a}, Elem(k', i)) == Tail(D, Elem(k', i)) {
        TailAdd(D, a, Elem(k', i));
      }
      PruneChildTails(m[k'], k', D + {a}, D);
    }
  }

  /** The deletion of a single-segment address is the removal of that top-level key. */
  lemma PruneAddTop(j: Json, D: set<Addr>, k: string)
    requires j.Object?
    ensures Prune(j, D + {[Key(k)]}) == Without(Prune(j, D), k)
  {
    var m := j.fields;
    var a := [Key(k)];
    forall k' | k' in m ensures PruneChild(m[k'], k', D + {a}) == PruneChild(m[k'], k', D) {
      TailAddShort(D, a, Key(k'));
      forall i: nat ensures Tail(D + {a}, Elem(k', i)) == Tail(D, Elem(k', i)) {
        TailAddShort(D, a, Elem(k', i));
      }
      PruneChildTails(m[k'], k', D + {a}, D);
    }
  }

  /**
    One step of the handler's loop: deleting a collected address from the
    pruned document either succeeds and yields the document pruned at one
    more address, or fails because an entry above it is gone already, and
    then pruning it as well changes nothing.
   */
  lemma {:induction false} RemovePruned(j: Json, D: set<Addr>, a: Addr)
    requires Collectible(j, a)
    ensures var r := RemoveAt(Prune(j, D), a[..|a| - 1], a[|a| - 1].name);
      && (r.Ok? ==> r.value == Prune(j, D + {a}))
      && (r.Err? ==> Prune(j, D + {a}) == Prune(j, D))
    decreases j, 1
  {
    CollectibleEndsWithKey(j, a);
    var k := a[0].name;
    if |a| == 1 {
      assert a == [Key(k)];
      PruneAddTop(j, D, k);
    } else {
      PruneAdd(j, D, a);
      if [Key(k)] !in D {
        match a[0]
        case Key(_) => RemovePrunedKey(j, D, a);
        case Elem(_, i) => RemovePrunedElem(j, D, a);
      }
    }
  }

  lemma {:induction false} RemovePrunedKey(j: Json, D: set<Addr>, a: Addr)
    requires Collectible(j, a) && |a| >= 2 && a[0].Key? && [Key(a[0].name)] !in D
    requires Prune(j, D + {a}).fields == Prune(j, D).fields[a[0].name := PruneChild(j.fields[a[0].name], a[0].name, D + {a})]
    ensures var r := RemoveAt(Prune(j, D), a[..|a| - 1], a[|a| - 1].name);
      && (r.Ok? ==> r.value == Prune(j, D + {a}))
      && (r.Err? ==> Prune(j, D + {a}) == Prune(j, D))
    decreases j, 0
  {
    var k := a[0].name;
    PruneKeyPieces(j, D, a);
    RemovePrunedBelow(Prune(j, D), j.fields[k], Tail(D, Key(k)), a);
  }

  /** Through the object under `k`: the pruned document leads there to the pruned object, and adding `a` re-prunes that object only. */
  lemma PruneKeyPieces(j: Json, D: set<Addr>, a: Addr)
    requires Collectible(j, a) && |a| >= 2 && a[0].Key? && [Key(a[0].name)] !in D
    requires Prune(j, D + {a}).fields == Prune(j, D).fields[a[0].name := PruneChild(j.fields[a[0].name], a[0].name, D + {a})]
    ensures var k := a[0].name; var c := j.fields[k]; var T := Tail(D, Key(k));
      && Step(Prune(j, D), a[0]) == Some(Prune(c, T))
      && Prune(j, D + {a}) == Put(Prune(j, D), a[0], Prune(c, T + {a[1..]}))
  {
    var k := a[0].name;
    TailAdd(D, a, Key(k));
    assert PruneChild(j.fields[k], k, D + {a}) == Prune(j.fields[k], Tail(D, Key(k)) + {a[1..]});
  }

  /** The parent of a long address, taken one level down, is the parent of its rest. */
  lemma DropLast(a: Addr)
    requires |a| >= 2
    ensures a[..|a| - 1] != [] && a[..|a| - 1][0] == a[0]
    ensures a[..|a| - 1][1..] == a[1..][..|a[1..]| - 1]
    ensures a[1..][|a[1..]| - 1] == a[|a| - 1]
  {
  }

  /** Adding a long address through element `i` of the array under `k` re-prunes that element only. */
  lemma PruneChildAddElem(v: Json, D: set<Addr>, a: Addr)
    requires |a| >= 2 && a[0].Elem? && v.Array? && a[0].index < |v.items|
    ensures var k := a[0].name; var i := a[0].index;
      PruneChild(v, k, D + {a}) ==
        Array(PruneChild(v, k, D).items[i := Prune(v.items[i], Tail(D, Elem(k, i)) + {a[1..]})])
  {
    var k := a[0].name;
    var items := v.items;
    forall i' | 0 <= i' < |items|
      ensures Prune(items[i'], Tail(D + {a}, Elem(k, i'))) ==
        (if i' == a[0].index then Prune(items[i'], Tail(D, Elem(k, i')) + {a[1..]}) else Prune(items[i'], Tail(D, Elem(k, i'))))
    {
      TailAdd(D, a, Elem(k, i'));
    }
  }

  lemma {:induction false} RemovePrunedElem(j: Json, D: set<Addr>, a: Addr)
    requires Collectible(j, a) && |a| >= 2 && a[0].Elem? && [Key(a[0].name)] !in D
    requires Prune(j, D + {a}).fields == Prune(j, D).fields[a[0].name := PruneChild(j.fields[a[0].name], a[0].name, D + {a})]
    ensures var r := RemoveAt(Prune(j, D), a[..|a| - 1], a[|a| - 1].name);
      && (r.Ok? ==> r.value == Prune(j, D + {a}))
      && (r.Err? ==> Prune(j, D + {a}) == Prune(j, D))
    decreases j, 0
  {
    var k := a[0].name;
    var i := a[0].index;
    PruneElemPieces(j, D, a);
    RemovePrunedBelow(Prune(j, D), j.fields[k].items[i], Tail(D, Elem(k, i)), a);
  }

  /**
    Below the first segment: when `P` leads along it to `c` pruned at `T`,
    the removal in `P` is the removal in `c`, put back in place.
   */
  lemma {:induction false} RemovePrunedBelow(P: Json, c: Json, T: set<Addr>, a: Addr)
    requires |a| >= 2 && Collectible(c, a[1..]) && Step(P, a[0]) == Some(Prune(c, T))
    ensures var r := RemoveAt(P, a[..|a| - 1], a[|a| - 1].name);
      var after := Put(P, a[0], Prune(c, T + {a[1..]}));
      && (r.Ok? ==> r.value == after)
      && (r.Err? ==> after == P)
    decreases c, 2
  {
    var b := a[1..];
    var parent, key := a[..|a| - 1], a[|a| - 1].name;
    RemovePruned(c, T, b);
    var inner := RemoveAt(Prune(c, T), b[..|b| - 1], b[|b| - 1].name);
    DropLast(a);
    assert Step(P, parent[0]).value == Prune(c, T);
    assert RemoveAt(Step(P, parent[0]).value, parent[1..], key) == inner;
    Reassemble(P, parent, key, Prune(c, T + {b}));
  }

  /** Through element `i` of the array under `k`: the pruned document leads there to the pruned element, and adding `a` re-prunes that element only. */
  lemma PruneElemPieces(j: Json, D: set<Addr>, a: Addr)
    requires Collectible(j, a) && |a| >= 2 && a[0].Elem? && [Key(a[0].name)] !in D
    requires Prune(j, D + {a}).fields == Prune(j, D).fields[a[0].name := PruneChild(j.fields[a[0].name], a[0].name, D + {a})]
    ensures var k := a[0].name; var i := a[0].index;
      var child := j.fields[k].items[i]; var T := Tail(D, Elem(k, i));
      && Step(Prune(j, D), a[0]) == Some(Prune(child, T))
      && Prune(j, D + {a}) == Put(Prune(j, D), a[0], Prune(child, T + {a[1..]}))
  {
    var k := a[0].name;
    var i := a[0].index;
    var v := j.fields[k];
    var P := Prune(j, D);
    var pitems := PruneChild(v, k, D).items;
    assert P.fields[k] == Array(pitems);
    assert pitems[i] == Prune(v.items[i], Tail(D, Elem(k, i)));
    PruneChildAddElem(v, D, a);
  }

  /**
    A removal below the first segment, put back together: when the removal
    in the child gives `grown`, or fails where `grown` is the child itself,
    the whole removal gives the parent with `grown` put back, or fails where
    that is the parent itself.
   */
  lemma Reassemble(P: Json, parent: Addr, key: string, grown: Json)
    requires parent != [] && Step(P, parent[0]).Some?
    requires var inner := RemoveAt(Step(P, parent[0]).value, parent[1..], key);
      && (inner.Ok? ==> inner.value == grown)
      && (inner.Err? ==> grown == Step(P, parent[0]).value)
    ensures var r := RemoveAt(P, parent, key);
      && (r.Ok? ==> r.value == Put(P, parent[0], grown))
      && (r.Err? ==> Put(P, parent[0], grown) == P)
  {
    RemoveAtStep(P, parent, key);
    var inner := RemoveAt(Step(P, parent[0]).value, parent[1..], key);
    if inner.Err? {
      PutSame(P, parent[0]);
    }
  }

  /** Putting back the value a segment leads to changes nothing. */
  lemma PutSame(P: Json, s: Seg)
    requires Step(P, s).Some?
    ensures Put(P, s, Step(P, s).value) == P
  {
    match s
    case Key(k) =>
      assert P.fields[k := P.fields[k]] == P.fields;
    case Elem(k, i) =>
      var items := P.fields[k].items;
      assert items[i := items[i]] == items;
      assert P.fields[k := Array(items)] == P.fields;
  }

  // ---------------------------------------------------------------------------
  // The loop's outcome is the scrub
  // ---------------------------------------------------------------------------

  /**
    Deleting exactly the collected addresses the rule matches gives the
    scrubbed document, whatever else `D` holds.
   */
  lemma {:induction false} PruneScrub(j: Json, rule: Rule, outer: Option<string>, D: set<Addr>)
    requires forall a: Addr :: Collectible(j, a) ==> (a in D <==> MatchIn(rule, outer, a))
    ensures Prune(j, D) == Scrub(j, rule, outer)
    decreases j, 2
  {
    match j
    case Object(m) =>
      forall k | k in m ensures [Key(k)] in D <==> Doomed(rule, outer, k) {
        assert Collectible(j, [Key(k)]);
      }
      forall k | k in m ensures PruneChild(m[k], k, D) == ScrubChild(m[k], rule, k) {
        PruneScrubChild(j, rule, outer, D, k);
      }
      PruneScrubTop(m, rule, outer, D);
    case _ =>
  }

  /** Pruning and scrubbing agree on an object when they drop the same keys and agree on every child. */
  lemma PruneScrubTop(m: map<string, Json>, rule: Rule, outer: Option<string>, D: set<Addr>)
    requires forall k :: k in m ==> ([Key(k)] in D <==> Doomed(rule, outer, k))
    requires forall k :: k in m ==> PruneChild(m[k], k, D) == ScrubChild(m[k], rule, k)
    ensures Prune(Object(m), D) == Scrub(Object(m), rule, outer)
  {
  }

  lemma {:induction false} PruneScrubChild(j: Json, rule: Rule, outer: Option<string>, D: set<Addr>, k: string)
    requires j.Object? && k in j.fields
    requires forall a: Addr :: Collectible(j, a) ==> (a in D <==> MatchIn(rule, outer, a))
    ensures PruneChild(j.fields[k], k, D) == ScrubChild(j.fields[k], rule, k)
    decreases j, 1
  {
    var v := j.fields[k];
    match v
    case Object(_) =>
      PruneScrubUnder(j, rule, outer, D, Key(k));
    case Array(items) =>
      forall i | 0 <= i < |items|
        ensures Prune(items[i], Tail(D, Elem(k, i))) == Scrub(items[i], rule, Some(RenderSeg(Elem(k, i))))
      {
        if items[i].Object? {
          PruneScrubUnder(j, rule, outer, D, Elem(k, i));
        }
      }
    case _ =>
  }

  /** Below one step, the addresses of `D` that start with the step are the matches seen from there. */
  lemma {:induction false} PruneScrubUnder(j: Json, rule: Rule, outer: Option<string>, D: set<Addr>, s: Seg)
    requires j.Object? && Step(j, s).Some? && Step(j, s).value.Object?
    requires forall a: Addr :: Collectible(j, a) ==> (a in D <==> MatchIn(rule, outer, a))
    ensures Prune(Step(j, s).value, Tail(D, s)) == Scrub(Step(j, s).value, rule, Some(RenderSeg(s)))
    decreases j, 0
  {
    var e := Step(j, s).value;
    forall b: Addr | Collectible(e, b) ensures b in Tail(D, s) <==> MatchIn(rule, Some(RenderSeg(s)), b) {
      var a := [s] + b;
      assert a[0] == s && a[1..] == b;
      CollectibleCons(j, a);
      ShiftMember(D, rule, outer, s, b);
    }
    PruneScrub(e, rule, Some(RenderSeg(s)), Tail(D, s));
  }

  /** Seen one step down, membership in `D` and the rule's match shift together. */
  lemma ShiftMember(D: set<Addr>, rule: Rule, outer: Option<string>, s: Seg, b: Addr)
    requires |b| >= 1
    requires [s] + b in D <==> MatchIn(rule, outer, [s] + b)
    ensures b in Tail(D, s) <==> MatchIn(rule, Some(RenderSeg(s)), b)
  {
    TailMember(D, s, b);
    MatchShift(rule, outer, s, b);
  }

  // ---------------------------------------------------------------------------
  // When a one-segment policy reaches processJsonData's index
  // ---------------------------------------------------------------------------

  /** The document has a key path of two or more segments: a nested object with a key. */
  predicate HasNested(root: map<string, Json>) {
    exists k :: k in root && NestsUnder(root[k])
  }

  predicate NestsUnder(v: Json) {
    match v
    case Object(f) => |f| > 0
    case Array(items) => exists i :: 0 <= i < |items| && items[i].Object? && |items[i].fields| > 0
    case _ => false
  }

  lemma HasNestedCollectible(root: map<string, Json>)
    ensures HasNested(root) <==> exists a: Addr :: Collectible(Object(root), a) && |a| >= 2
  {
    var j := Object(root);
    if HasNested(root) {
      var k :| k in root && NestsUnder(root[k]);
      match root[k]
      case Object(f) =>
        var x :| x in f;
        var a := [Key(k), Key(x)];
        assert a[1..] == [Key(x)];
        assert Collectible(j, a);
      case Array(items) =>
        var i :| 0 <= i < |items| && items[i].Object? && |items[i].fields| > 0;
        var x :| x in items[i].fields;
        var a := [Elem(k, i), Key(x)];
        assert a[1..] == [Key(x)];
        assert Collectible(j, a);
    }
    if exists a: Addr :: Collectible(j, a) && |a| >= 2 {
      var a: Addr :| Collectible(j, a) && |a| >= 2;
      var k := a[0].name;
      assert k in root;
      var b := a[1..];
      match a[0]
      case Key(_) =>
        assert Collectible(root[k], b);
        assert b[0].name in root[k].fields;
      case Elem(_, i) =>
        assert Collectible(root[k].items[i], b);
        assert b[0].name in root[k].items[i].fields;
    }
  }
}
