/**
  collectKeys: every key path of a document, parents before their descendants.
  Go visits the keys of a map in an unspecified order; the method picks the
  next key with `:|`, so what it proves holds for every visiting order.
 */
module KeyPaths {
  import opened Text
  import opened Documents

  predicate Distinct<T(==)>(xs: seq<T>) {
    forall i, j :: 0 <= i < j < |xs| ==> xs[i] != xs[j]
  }

  /** Every ancestor in the list comes before its descendants. */
  predicate ParentsFirst(xs: seq<Addr>) {
    forall i, j :: 0 <= i < |xs| && 0 <= j < |xs| && Above(xs[i], xs[j]) ==> i < j
  }

  /** The addresses of a child value, seen from its parent through segment `s`. */
  function Prepend(s: Seg, block: seq<Addr>): seq<Addr> {
    seq(|block|, i requires 0 <= i < |block| => [s] + block[i])
  }

  lemma AboveUnder(s: Seg, x: Addr, y: Addr)
    requires |x| >= 1
    ensures Above([s] + x, [s] + y) <==> Above(x, y)
  {
    var sx, sy := [s] + x, [s] + y;
    if |x| < |y| {
      assert sx[..|sx| - 1] == [s] + x[..|x| - 1];
      assert sy[..|sx| - 1] == [s] + y[..|x| - 1];
      assert sx[|sx| - 1] == x[|x| - 1];
      assert sy[|sx| - 1] == y[|x| - 1];
      assert sx[..|sx| - 1] == sy[..|sx| - 1] <==> x[..|x| - 1] == y[..|x| - 1] by {
        if sx[..|sx| - 1] == sy[..|sx| - 1] {
          assert x[..|x| - 1] == sx[..|sx| - 1][1..];
          assert y[..|x| - 1] == sy[..|sx| - 1][1..];
        }
      }
    }
  }

  /**
    Appending the addresses of a child reached through `s` keeps both
    properties, provided nothing listed already starts with `s` except
    one-segment addresses.
   */
  lemma AppendBlock(addrs: seq<Addr>, s: Seg, block: seq<Addr>)
    requires Distinct(addrs) && ParentsFirst(addrs)
    requires Distinct(block) && ParentsFirst(block)
    requires forall b :: b in block ==> |b| >= 1
    requires forall a :: a in addrs ==> |a| <= 1 || a[0] != s
    ensures Distinct(addrs + Prepend(s, block)) && ParentsFirst(addrs + Prepend(s, block))
  {
    var p := Prepend(s, block);
    var xs := addrs + p;
    assert |p| == |block|;
    assert forall k :: |addrs| <= k < |xs| ==> xs[k] == [s] + block[k - |addrs|];
    forall i, j | 0 <= i < j < |xs|
      ensures xs[i] != xs[j]
    {
      if i >= |addrs| {
        assert block[i - |addrs|] in block && block[j - |addrs|] in block;
        assert xs[i][1..] == block[i - |addrs|];
        assert xs[j][1..] == block[j - |addrs|];
      } else if j >= |addrs| {
        assert addrs[i] in addrs;
        assert block[j - |addrs|] in block;
      }
    }
    forall i, j | 0 <= i < |xs| && 0 <= j < |xs| && Above(xs[i], xs[j])
      ensures i < j
    {
      if i >= |addrs| {
        var bi := block[i - |addrs|];
        assert bi in block;
        if j >= |addrs| {
          var bj := block[j - |addrs|];
          AboveUnder(s, bi, bj);
          assert Above(bi, bj);
        }
      }
    }
  }

  /** The children of an object held under `k`, prefixed with `k`. */
  lemma KeyBlock(m: map<string, Json>, k: string, block: seq<Addr>)
    requires k in m && m[k].Object?
    requires forall b :: b in block <==> Collectible(m[k], b)
    ensures forall a: Addr :: a in Prepend(Key(k), block) <==>
      Collectible(Object(m), a) && a[0].name == k && a != [Key(k)]
  {
    var p := Prepend(Key(k), block);
    forall a: Addr
      ensures a in p <==> Collectible(Object(m), a) && a[0].name == k && a != [Key(k)]
    {
      if a in p {
        var i :| 0 <= i < |p| && p[i] == a;
        assert a[1..] == block[i];
        assert block[i] in block;
      }
      if Collectible(Object(m), a) && a[0].name == k && a != [Key(k)] {
        assert a[1..] in block;
        var i :| 0 <= i < |block| && block[i] == a[1..];
        assert p[i] == [Key(k)] + a[1..] == a;
      }
    }
  }

  /** The children of the object at element `i` of the array under `k`, prefixed with `k[i]`. */
  lemma ElemBlock(m: map<string, Json>, k: string, i: nat, block: seq<Addr>)
    requires k in m && m[k].Array? && i < |m[k].items| && m[k].items[i].Object?
    requires forall b :: b in block <==> Collectible(m[k].items[i], b)
    ensures forall a: Addr :: a in Prepend(Elem(k, i), block) <==>
      Collectible(Object(m), a) && a[0] == Elem(k, i)
  {
    var p := Prepend(Elem(k, i), block);
    forall a: Addr
      ensures a in p <==> Collectible(Object(m), a) && a[0] == Elem(k, i)
    {
      if a in p {
        var t :| 0 <= t < |p| && p[t] == a;
        assert a[1..] == block[t];
        assert block[t] in block;
      }
      if Collectible(Object(m), a) && a[0] == Elem(k, i) {
        assert a[1..] in block;
        var t :| 0 <= t < |block| && block[t] == a[1..];
        assert p[t] == [Elem(k, i)] + a[1..] == a;
      }
    }
  }

  /** Appending the block of a new top-level name keeps both properties. */
  lemma AppendNamed(addrs: seq<Addr>, block: seq<Addr>, k: string)
    requires Distinct(addrs) && ParentsFirst(addrs) && Distinct(block) && ParentsFirst(block)
    requires forall a: Addr :: a in addrs ==> |a| >= 1 && a[0].name != k
    requires forall b: Addr :: b in block ==> |b| >= 1 && b[0].name == k
    ensures Distinct(addrs + block) && ParentsFirst(addrs + block)
  {
    var xs := addrs + block;
    forall i, j | 0 <= i < j < |xs|
      ensures xs[i] != xs[j]
    {
      if i < |addrs| <= j {
        assert addrs[i] in addrs && block[j - |addrs|] in block;
      }
    }
    assert forall j :: 0 <= j < |addrs| ==> xs[j] == addrs[j];
    assert forall i :: |addrs| <= i < |xs| ==> xs[i] == block[i - |addrs|];
  }

  /** `keys` are the paths of `addrs`, each read after `base`. */
  ghost predicate Rendered(keys: seq<string>, base: Addr, addrs: seq<Addr>) {
    && |keys| == |addrs|
    && forall i {:trigger keys[i]} :: 0 <= i < |addrs| ==> |addrs[i]| >= 1 && keys[i] == Path(base + addrs[i])
  }

  lemma RenderedConcat(keys: seq<string>, base: Addr, addrs: seq<Addr>, more: seq<string>, block: seq<Addr>)
    requires Rendered(keys, base, addrs) && Rendered(more, base, block)
    ensures Rendered(keys + more, base, addrs + block)
  {
    var ks, xs := keys + more, addrs + block;
    forall i | 0 <= i < |xs|
      ensures |xs[i]| >= 1 && ks[i] == Path(base + xs[i])
    {
      if i >= |addrs| {
        assert xs[i] == block[i - |addrs|] && ks[i] == more[i - |addrs|];
      } else {
        assert xs[i] == addrs[i] && ks[i] == keys[i];
      }
    }
  }

  /** Paths collected below segment `s` are paths of the prefixed addresses. */
  lemma RenderedUnder(more: seq<string>, base: Addr, s: Seg, block: seq<Addr>)
    requires Rendered(more, base + [s], block)
    ensures Rendered(more, base, Prepend(s, block))
  {
    var p := Prepend(s, block);
    forall i | 0 <= i < |p|
      ensures |p[i]| >= 1 && more[i] == Path(base + p[i])
    {
      assert base + p[i] == (base + [s]) + block[i];
    }
  }

  /**
    The paths of every key of `m` and below, each the rendering of a distinct
    collectible address (relative to `m`, after `base`), parents first.
    `prefix` is the path of `base`, and empty exactly at the top level.
   */
  method CollectKeys(m: map<string, Json>, prefix: string, ghost base: Addr)
    returns (keys: seq<string>, ghost addrs: seq<Addr>)
    requires WellKeyed(Object(m))
    requires base == [] <==> prefix == ""
    requires base == [] ==> "" !in m
    requires base != [] ==> prefix == Path(base)
    ensures forall a :: a in addrs <==> Collectible(Object(m), a)
    ensures Rendered(keys, base, addrs)
    ensures Distinct(addrs) && ParentsFirst(addrs)
    decreases Object(m), 2
  {
    keys, addrs := [], [];
    var rest := m.Keys;
    while rest != {}
      invariant rest <= m.Keys
      invariant forall a: Addr :: a in addrs <==> Collectible(Object(m), a) && a[0].name !in rest
      invariant Rendered(keys, base, addrs)
      invariant Distinct(addrs) && ParentsFirst(addrs)
      decreases rest
    {
      var k :| k in rest;
      var fullKey := k;
      if prefix != "" {
        fullKey := prefix + "." + k;
      }
      if base == [] {
        PathOne(Key(k));
        assert base + [Key(k)] == [Key(k)];
      } else {
        PathSnoc(base, Key(k));
      }
      var more, block := CollectUnder(m, k, fullKey, base);
      AppendNamed(addrs, block, k);
      RenderedConcat(keys, base, addrs, more, block);
      keys, addrs := keys + more, addrs + block;
      rest := rest - {k};
    }
  }

  /**
    One turn of collectKeys' loop: the path of key `k` itself, then the paths
    inside its value when that is an object, or inside the objects its array
    value holds.
   */
  method CollectUnder(m: map<string, Json>, k: string, fullKey: string, ghost base: Addr)
    returns (keys: seq<string>, ghost addrs: seq<Addr>)
    requires k in m && WellKeyed(Object(m))
    requires fullKey != "" && fullKey == Path(base + [Key(k)])
    ensures forall a: Addr :: a in addrs <==> Collectible(Object(m), a) && a[0].name == k
    ensures Rendered(keys, base, addrs)
    ensures Distinct(addrs) && ParentsFirst(addrs)
    decreases Object(m), 1
  {
    keys, addrs := [fullKey], [[Key(k)]];
    assert Rendered(keys, base, addrs);
    match m[k] {
      case Object(child) =>
        var ks, block := CollectKeys(child, fullKey, base + [Key(k)]);
        KeyBlock(m, k, block);
        AppendBlock(addrs, Key(k), block);
        RenderedUnder(ks, base, Key(k), block);
        RenderedConcat(keys, base, addrs, ks, Prepend(Key(k), block));
        keys, addrs := keys + ks, addrs + Prepend(Key(k), block);
      case Array(items) =>
        for i := 0 to |items|
          invariant CollectedUpTo(m, k, addrs, i)
          invariant Rendered(keys, base, addrs)
          invariant Distinct(addrs) && ParentsFirst(addrs)
        {
          keys, addrs := CollectElem(m, k, fullKey, base, i, keys, addrs);
        }
      case _ =>
        forall a: Addr | Collectible(Object(m), a) && a[0].name == k
          ensures a == [Key(k)]
        {
          assert a[0] == Key(k) && |a| == 1;
        }
    }
  }

  /** The addresses under key `k` whose array elements before `i` are done. */
  ghost predicate CollectedUpTo(m: map<string, Json>, k: string, addrs: seq<Addr>, i: nat) {
    forall a: Addr :: a in addrs <==>
      (Collectible(Object(m), a) && a[0].name == k && (a == [Key(k)] || (a[0].Elem? && a[0].index < i)))
  }

  /** One turn of the loop over an array value: the paths inside element `i`, when it is an object. */
  method CollectElem(m: map<string, Json>, k: string, fullKey: string, ghost base: Addr, i: nat,
                     keys0: seq<string>, ghost addrs0: seq<Addr>)
    returns (keys: seq<string>, ghost addrs: seq<Addr>)
    requires k in m && WellKeyed(Object(m)) && m[k].Array? && i < |m[k].items|
    requires fullKey != "" && fullKey == Path(base + [Key(k)])
    requires CollectedUpTo(m, k, addrs0, i)
    requires Rendered(keys0, base, addrs0)
    requires Distinct(addrs0) && ParentsFirst(addrs0)
    ensures CollectedUpTo(m, k, addrs, i + 1)
    ensures Rendered(keys, base, addrs)
    ensures Distinct(addrs) && ParentsFirst(addrs)
    decreases Object(m), 0
  {
    keys, addrs := keys0, addrs0;
    var item := m[k].items[i];
    if item.Object? {
      PathElem(base, k, i);
      var ks, block := CollectKeys(item.fields, fullKey + "[" + ShowNat(i) + "]", base + [Elem(k, i)]);
      ElemBlock(m, k, i, block);
      AppendBlock(addrs, Elem(k, i), block);
      RenderedUnder(ks, base, Elem(k, i), block);
      RenderedConcat(keys, base, addrs, ks, Prepend(Elem(k, i), block));
      keys, addrs := keys + ks, addrs + Prepend(Elem(k, i), block);
    }
  }
}
