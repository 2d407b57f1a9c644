/**
 Matrix expansion: a target with a matrix becomes one target per combination of
 values. The keys of the matrix are visited in no particular order.
 */
module Matrix {
  import opened Common

  type Assignment<V> = map<string, V>

  /** A matrix gives each key a list of values, or something that is no list. */
  type Matrix<V> = map<string, Option<seq<V>>>

  /** How often `x` occurs in `s`. */
  ghost function Occurs<T>(s: seq<T>, x: T): nat {
    if s == [] then 0 else Occurs(s[..|s| - 1], x) + if s[|s| - 1] == x then 1 else 0
  }

  lemma {:induction false} OccursConcat<T>(s: seq<T>, t: seq<T>, x: T)
    ensures Occurs(s + t, x) == Occurs(s, x) + Occurs(t, x)
  {
    if t == [] {
      assert s + t == s;
    } else {
      assert (s + t)[..|s + t| - 1] == s + t[..|t| - 1];
      OccursConcat(s, t[..|t| - 1], x);
    }
  }

  lemma {:induction false} OccursIsMultiplicity<T>(s: seq<T>, x: T)
    ensures multiset(s)[x] == Occurs(s, x)
  {
    if s != [] {
      OccursIsMultiplicity(s[..|s| - 1], x);
      assert s == s[..|s| - 1] + [s[|s| - 1]];
    }
  }

  /** Every context extended by the same value for `k`. */
  function SetAll<V>(es: seq<Assignment<V>>, k: string, v: V): (r: seq<Assignment<V>>)
    ensures |r| == |es|
  {
    if es == [] then [] else SetAll(es[..|es| - 1], k, v) + [es[|es| - 1][k := v]]
  }

  /** Every context extended by every value for `k`. */
  function Cross<V>(es: seq<Assignment<V>>, k: string, vs: seq<V>): seq<Assignment<V>> {
    if vs == [] then [] else Cross(es, k, vs[..|vs| - 1]) + SetAll(es, k, vs[|vs| - 1])
  }

  ghost predicate AllLists<V>(m: Matrix<V>, ks: seq<string>) {
    forall k :: k in ks ==> k in m && m[k].Some?
  }

  /** All contexts after the keys `ks` have been visited in this order. */
  ghost function Expanded<V>(m: Matrix<V>, ks: seq<string>): seq<Assignment<V>>
    requires AllLists(m, ks)
  {
    if ks == [] then [map[]] else Cross(Expanded(m, ks[..|ks| - 1]), ks[|ks| - 1], m[ks[|ks| - 1]].value)
  }

  /** The product of the weights of `ks`. */
  ghost function Product(ks: seq<string>, w: map<string, nat>): nat
    requires Elems(ks) <= w.Keys
  {
    if ks == [] then 1
    else
      assert Elems(ks[..|ks| - 1]) <= Elems(ks) && ks[|ks| - 1] in Elems(ks);
      Product(ks[..|ks| - 1], w) * w[ks[|ks| - 1]]
  }

  /** How often each value of `f` occurs in the list for its key. */
  ghost function Choices<V>(m: Matrix<V>, f: Assignment<V>): map<string, nat> {
    map k | k in m && m[k].Some? && k in f :: Occurs(m[k].value, f[k])
  }

  ghost function Lengths<V>(m: Matrix<V>): map<string, nat> {
    map k | k in m && m[k].Some? :: |m[k].value|
  }

  lemma ListsHaveWeights<V>(m: Matrix<V>, ks: seq<string>)
    requires AllLists(m, ks)
    ensures Elems(ks) <= Lengths(m).Keys
    ensures forall f: Assignment<V> :: Elems(ks) <= f.Keys ==> Elems(ks) <= Choices(m, f).Keys
  {
  }

  /** In how many ways `f` can be put together from the value lists of `ks`. */
  ghost function Ways<V>(m: Matrix<V>, ks: seq<string>, f: Assignment<V>): nat
    requires AllLists(m, ks) && Elems(ks) <= f.Keys
  {
    ListsHaveWeights(m, ks);
    Product(ks, Choices(m, f))
  }

  ghost function LengthProduct<V>(m: Matrix<V>, ks: seq<string>): nat
    requires AllLists(m, ks)
  {
    ListsHaveWeights(m, ks);
    Product(ks, Lengths(m))
  }

  lemma {:induction false} ProductLocal(ks: seq<string>, w1: map<string, nat>, w2: map<string, nat>)
    requires Elems(ks) <= w1.Keys && Elems(ks) <= w2.Keys && forall k :: k in ks ==> w1[k] == w2[k]
    ensures Product(ks, w1) == Product(ks, w2)
  {
    if ks != [] {
      assert Elems(ks[..|ks| - 1]) <= Elems(ks) && ks[|ks| - 1] in Elems(ks);
      ProductLocal(ks[..|ks| - 1], w1, w2);
    }
  }

  lemma {:induction false} SetAllOccurs<V>(es: seq<Assignment<V>>, k: string, v: V, f: Assignment<V>)
    requires forall e :: e in es ==> k !in e
    ensures Occurs(SetAll(es, k, v), f) == if k in f && f[k] == v then Occurs(es, f - {k}) else 0
  {
    if es != [] {
      var e := es[|es| - 1];
      assert e in es;
      assert forall x :: x in es[..|es| - 1] ==> x in es;
      SetAllOccurs(es[..|es| - 1], k, v, f);
      OccursConcat(SetAll(es[..|es| - 1], k, v), [e[k := v]], f);
      assert Occurs([e[k := v]], f) == if e[k := v] == f then 1 else 0;
      ExtendIs(e, k, v, f);
    }
  }

  lemma ExtendIs<V>(e: Assignment<V>, k: string, v: V, f: Assignment<V>)
    requires k !in e
    ensures e[k := v] == f <==> k in f && f[k] == v && e == f - {k}
  {
    if k in f && f[k] == v && e == f - {k} {
      assert e[k := v] == f;
    }
    if e[k := v] == f {
      assert e == f - {k};
    }
  }

  lemma OneMoreTimes(x: nat, y: nat)
    ensures x * (y + 1) == x * y + x
  {
  }

  lemma {:induction false} CrossOccurs<V>(es: seq<Assignment<V>>, k: string, vs: seq<V>, f: Assignment<V>)
    requires forall e :: e in es ==> k !in e
    ensures Occurs(Cross(es, k, vs), f) == if k in f then Occurs(es, f - {k}) * Occurs(vs, f[k]) else 0
  {
    if vs != [] {
      var v := vs[|vs| - 1];
      CrossOccurs(es, k, vs[..|vs| - 1], f);
      OccursConcat(Cross(es, k, vs[..|vs| - 1]), SetAll(es, k, v), f);
      SetAllOccurs(es, k, v, f);
      if k in f {
        var n, o := Occurs(es, f - {k}), Occurs(vs[..|vs| - 1], f[k]);
        OneMoreTimes(n, o);
        assert Occurs(vs, f[k]) == if v == f[k] then o + 1 else o;
      }
    }
  }

  lemma {:induction false} SetAllKeys<V>(es: seq<Assignment<V>>, k: string, v: V, ks: set<string>)
    requires forall e :: e in es ==> e.Keys == ks
    ensures forall e :: e in SetAll(es, k, v) ==> e.Keys == ks + {k}
  {
    if es != [] {
      assert es[|es| - 1] in es;
      assert forall x :: x in es[..|es| - 1] ==> x in es;
      SetAllKeys(es[..|es| - 1], k, v, ks);
    }
  }

  lemma {:induction false} CrossKeys<V>(es: seq<Assignment<V>>, k: string, vs: seq<V>, ks: set<string>)
    requires forall e :: e in es ==> e.Keys == ks
    ensures forall e :: e in Cross(es, k, vs) ==> e.Keys == ks + {k}
  {
    if vs != [] {
      CrossKeys(es, k, vs[..|vs| - 1], ks);
      SetAllKeys(es, k, vs[|vs| - 1], ks);
    }
  }

  lemma {:induction false} CrossLength<V>(es: seq<Assignment<V>>, k: string, vs: seq<V>)
    ensures |Cross(es, k, vs)| == |es| * |vs|
  {
    if vs != [] {
      CrossLength(es, k, vs[..|vs| - 1]);
      OneMoreTimes(|es|, |vs| - 1);
    }
  }

  /** Every context assigns exactly the visited keys, and there are as many as the lengths multiply to. */
  lemma {:induction false} ExpandedKeys<V>(m: Matrix<V>, ks: seq<string>)
    requires AllLists(m, ks)
    ensures forall e :: e in Expanded(m, ks) ==> e.Keys == Elems(ks)
    ensures |Expanded(m, ks)| == LengthProduct(m, ks)
  {
    if ks != [] {
      var init, k := ks[..|ks| - 1], ks[|ks| - 1];
      ExpandedKeys(m, init);
      CrossKeys(Expanded(m, init), k, m[k].value, Elems(init));
      CrossLength(Expanded(m, init), k, m[k].value);
      ElemsAppend(init, k);
      assert ks == init + [k];
    }
  }

  lemma WaysLocal<V>(m: Matrix<V>, ks: seq<string>, f: Assignment<V>, k: string)
    requires AllLists(m, ks) && Elems(ks) <= f.Keys && k !in ks
    ensures Elems(ks) <= (f - {k}).Keys && Ways(m, ks, f - {k}) == Ways(m, ks, f)
  {
    assert k !in Elems(ks);
    ListsHaveWeights(m, ks);
    ProductLocal(ks, Choices(m, f), Choices(m, f - {k}));
  }

  /** Each assignment of all keys occurs once for every way to choose its values; nothing else occurs. */
  lemma {:induction false} ExpandedOccurs<V>(m: Matrix<V>, ks: seq<string>, f: Assignment<V>)
    requires AllLists(m, ks) && Distinct(ks)
    ensures Occurs(Expanded(m, ks), f) == if f.Keys == Elems(ks) then Ways(m, ks, f) else 0
  {
    if ks == [] {
      assert Occurs([map[]], f) == if f == map[] then 1 else 0;
    } else {
      var init, k := ks[..|ks| - 1], ks[|ks| - 1];
      assert ks == init + [k];
      ElemsAppend(init, k);
      ExpandedKeys(m, init);
      CrossOccurs(Expanded(m, init), k, m[k].value, f);
      ExpandedOccurs(m, init, f - {k});
      if k in f {
        assert (f - {k}).Keys == f.Keys - {k};
        assert f.Keys == Elems(ks) <==> (f - {k}).Keys == Elems(init);
        if f.Keys == Elems(ks) { WaysLocal(m, init, f, k); }
      }
    }
  }

  lemma {:induction false} OccursMeansIn<T>(s: seq<T>, x: T)
    ensures Occurs(s, x) > 0 <==> x in s
  {
    if s != [] {
      OccursMeansIn(s[..|s| - 1], x);
      assert s == s[..|s| - 1] + [s[|s| - 1]];
    }
  }

  lemma PositiveProduct(x: nat, y: nat)
    ensures x * y > 0 <==> x > 0 && y > 0
  {
    if x > 0 && y > 0 { assert x * y >= 1; }
  }

  lemma {:induction false} ProductPositive(ks: seq<string>, w: map<string, nat>)
    requires Elems(ks) <= w.Keys
    ensures Product(ks, w) > 0 <==> forall k :: k in ks ==> w[k] > 0
  {
    if ks != [] {
      var init, k := ks[..|ks| - 1], ks[|ks| - 1];
      assert Elems(init) <= Elems(ks) && k in Elems(ks);
      ProductPositive(init, w);
      PositiveProduct(Product(init, w), w[k]);
      assert ks == init + [k];
    }
  }

  /** The contexts are exactly the elements of the Cartesian product of the value lists. */
  lemma ExpandedIsProduct<V>(m: Matrix<V>, ks: seq<string>, f: Assignment<V>)
    requires AllLists(m, ks) && Distinct(ks)
    ensures f in Expanded(m, ks) <==> f.Keys == Elems(ks) && forall k :: k in ks ==> f[k] in m[k].value
  {
    ExpandedOccurs(m, ks, f);
    OccursMeansIn(Expanded(m, ks), f);
    if f.Keys == Elems(ks) {
      ListsHaveWeights(m, ks);
      ProductPositive(ks, Choices(m, f));
      forall k | k in ks ensures k in f && (Choices(m, f)[k] > 0 <==> f[k] in m[k].value) {
        assert k in Elems(ks);
        OccursMeansIn(m[k].value, f[k]);
      }
    }
  }

  lemma Regroup(a: nat, b: nat, c: nat)
    ensures (a * b) * c == (a * c) * b
  {
    assert (a * b) * c == a * (b * c) == a * (c * b) == (a * c) * b;
  }

  ghost function Drop<T>(s: seq<T>, i: nat): seq<T>
    requires i < |s|
  {
    s[..i] + s[i + 1..]
  }

  lemma DropElems<T>(s: seq<T>, i: nat)
    requires i < |s| && Distinct(s)
    ensures Distinct(Drop(s, i)) && Elems(Drop(s, i)) == Elems(s) - {s[i]}
  {
    var d := Drop(s, i);
    forall x ensures x in d <==> x in s && x != s[i] {
      if x in s && x != s[i] {
        var j :| 0 <= j < |s| && s[j] == x;
        assert d[if j < i then j else j - 1] == x;
      }
    }
  }

  /** Any key may be taken out of the product first. */
  lemma {:induction false} ProductDrop(ks: seq<string>, w: map<string, nat>, i: nat)
    requires Elems(ks) <= w.Keys && Distinct(ks) && i < |ks|
    ensures Elems(Drop(ks, i)) <= w.Keys && ks[i] in Elems(ks)
    ensures Product(ks, w) == Product(Drop(ks, i), w) * w[ks[i]]
  {
    DropElems(ks, i);
    assert ks[i] in ks;
    var init, k := ks[..|ks| - 1], ks[|ks| - 1];
    if i == |ks| - 1 {
      assert Drop(ks, i) == init;
    } else {
      assert Elems(init) <= Elems(ks) && k in Elems(ks);
      ProductDrop(init, w, i);
      var d := Drop(ks, i);
      assert d[..|d| - 1] == Drop(init, i) && d[|d| - 1] == k;
      Regroup(Product(Drop(init, i), w), w[ks[i]], w[k]);
    }
  }

  lemma {:induction false} ProductAnyOrder(ks1: seq<string>, ks2: seq<string>, w: map<string, nat>)
    requires Distinct(ks1) && Distinct(ks2) && Elems(ks1) == Elems(ks2) <= w.Keys
    ensures Product(ks1, w) == Product(ks2, w)
    decreases |ks1|
  {
    DistinctCount(ks1);
    DistinctCount(ks2);
    if ks1 != [] {
      var k := ks1[|ks1| - 1];
      assert k in Elems(ks1) && k in Elems(ks2);
      var i :| 0 <= i < |ks2| && ks2[i] == k;
      ProductDrop(ks2, w, i);
      DropElems(ks2, i);
      DropElems(ks1, |ks1| - 1);
      assert Drop(ks1, |ks1| - 1) == ks1[..|ks1| - 1];
      ProductAnyOrder(ks1[..|ks1| - 1], Drop(ks2, i), w);
    }
  }

  /** Whatever the order in which the keys are visited, the same contexts come out, equally often. */
  lemma OrderDoesNotMatter<V>(m: Matrix<V>, ks1: seq<string>, ks2: seq<string>, f: Assignment<V>)
    requires AllLists(m, ks1) && AllLists(m, ks2) && Distinct(ks1) && Distinct(ks2) && Elems(ks1) == Elems(ks2)
    ensures multiset(Expanded(m, ks1))[f] == multiset(Expanded(m, ks2))[f]
    ensures |Expanded(m, ks1)| == |Expanded(m, ks2)| == LengthProduct(m, ks1)
  {
    OccursIsMultiplicity(Expanded(m, ks1), f);
    OccursIsMultiplicity(Expanded(m, ks2), f);
    ExpandedOccurs(m, ks1, f);
    ExpandedOccurs(m, ks2, f);
    ListsHaveWeights(m, ks1);
    if f.Keys == Elems(ks1) {
      ProductAnyOrder(ks1, ks2, Choices(m, f));
    }
    ExpandedKeys(m, ks1);
    ExpandedKeys(m, ks2);
    ProductAnyOrder(ks1, ks2, Lengths(m));
  }

  method ExtendAll<V>(es: seq<Assignment<V>>, k: string, vs: seq<V>) returns (r: seq<Assignment<V>>)
    ensures r == Cross(es, k, vs)
  {
    r := [];
    for i := 0 to |vs|
      invariant r == Cross(es, k, vs[..i])
    {
      var before := r;
      for j := 0 to |es|
        invariant r == before + SetAll(es[..j], k, vs[i])
      {
        assert es[..j + 1][..j] == es[..j];
        r := r + [es[j][k := vs[i]]];
      }
      assert es[..|es|] == es;
      assert vs[..i + 1][..i] == vs[..i];
    }
    assert vs[..|vs|] == vs;
  }

  /** Expands the matrix; `order` is the order in which its keys happened to be visited. */
  method GetEvalContexts<V>(m: Matrix<V>) returns (r: Option<seq<Assignment<V>>>, ghost order: seq<string>)
    ensures r.None? <==> exists k :: k in m && m[k].None?
    ensures r.Some? ==> Distinct(order) && Elems(order) == m.Keys && AllLists(m, order)
    ensures r.Some? ==> forall f :: multiset(r.value)[f] == if f.Keys == m.Keys then Ways(m, order, f) else 0
    ensures r.Some? ==> |r.value| == LengthProduct(m, order)
  {
    var ectxs: seq<Assignment<V>> := [map[]];
    var todo := m.Keys;
    order := [];
    while todo != {}
      invariant todo <= m.Keys && Elems(order) == m.Keys - todo && Distinct(order)
      invariant AllLists(m, order) && ectxs == Expanded(m, order)
      decreases |todo|
    {
      var k :| k in todo;
      if m[k].None? {
        return None, order;
      }
      ectxs := ExtendAll(ectxs, k, m[k].value);
      VisitStep(m, order, todo, k);
      order := order + [k];
      OneMoreDone(m.Keys, todo, k);
      todo := todo - {k};
    }
    AllDone(m.Keys);
    AllAccounted(m, order);
    return Some(ectxs), order;
  }

  lemma VisitStep<V>(m: Matrix<V>, ks: seq<string>, todo: set<string>, k: string)
    requires AllLists(m, ks) && Distinct(ks) && k in m && m[k].Some?
    requires Elems(ks) == m.Keys - todo && k in todo
    ensures AllLists(m, ks + [k]) && Distinct(ks + [k]) && Elems(ks + [k]) == m.Keys - todo + {k}
    ensures Expanded(m, ks + [k]) == Cross(Expanded(m, ks), k, m[k].value)
  {
    assert k !in Elems(ks);
    ElemsAppend(ks, k);
    assert (ks + [k])[..|ks + [k]| - 1] == ks;
  }

  lemma AllAccounted<V>(m: Matrix<V>, ks: seq<string>)
    requires Distinct(ks) && Elems(ks) == m.Keys && AllLists(m, ks)
    ensures forall f :: multiset(Expanded(m, ks))[f] == if f.Keys == m.Keys then Ways(m, ks, f) else 0
    ensures |Expanded(m, ks)| == LengthProduct(m, ks)
    ensures forall k :: k in m ==> m[k].Some?
  {
    forall f: Assignment<V> ensures multiset(Expanded(m, ks))[f] == if f.Keys == m.Keys then Ways(m, ks, f) else 0 {
      OccursIsMultiplicity(Expanded(m, ks), f);
      ExpandedOccurs(m, ks, f);
    }
    ExpandedKeys(m, ks);
    forall k | k in m ensures m[k].Some? { assert k in Elems(ks); }
  }
}
