/**
 The in-place and out-of-place deduplications of slices. Several of them run on
 arrays that other slices share, so what they leave behind matters as much as
 what they return.
 */
module Slices {
  import opened Common
  import opened Texts

  /** The first occurrence of every element, in order. */
  function Firsts<T(==)>(s: seq<T>): seq<T> {
    if s == [] then []
    else
      var p := Firsts(s[..|s| - 1]);
      if s[|s| - 1] in p then p else p + [s[|s| - 1]]
  }

  lemma {:induction false} FirstsElems<T>(s: seq<T>)
    ensures forall x :: x in Firsts(s) <==> x in s
    ensures Distinct(Firsts(s))
    ensures |Firsts(s)| <= |s|
  {
    if s != [] {
      var t := s[..|s| - 1];
      FirstsElems(t);
      assert s == t + [s[|s| - 1]];
    }
  }

  lemma FirstsMember<T>(s: seq<T>, x: T)
    ensures x in Firsts(s) <==> x in s
  {
    FirstsElems(s);
  }

  /** A sequence with no repetition is left as it is. */
  lemma {:induction false} FirstsOfDistinct<T>(s: seq<T>)
    requires Distinct(s)
    ensures Firsts(s) == s
  {
    if s != [] {
      var t, x := s[..|s| - 1], s[|s| - 1];
      FirstsOfDistinct(t);
      assert x !in t;
      assert s == t + [x];
    }
  }

  /** Appending only elements that are already there adds nothing. */
  lemma {:induction false} FirstsAbsorb<T>(s: seq<T>, tail: seq<T>)
    requires forall x :: x in tail ==> x in s
    ensures Firsts(s + tail) == Firsts(s)
  {
    if tail == [] {
      assert s + tail == s;
    } else {
      var init, x := tail[..|tail| - 1], tail[|tail| - 1];
      FirstsAbsorb(s, init);
      FirstsElems(s);
      assert (s + tail)[..|s + tail| - 1] == s + init;
      assert x in tail && x in Firsts(s);
    }
  }

  /** The kept elements come in the order of their first occurrences. */
  lemma {:induction false} FirstsInOrder<T>(s: seq<T>, i: nat, j: nat, n: nat)
    requires i < j < |Firsts(s)| && n < |s| && s[n] == Firsts(s)[j]
    ensures Firsts(s)[i] in s[..n]
  {
    var t, x := s[..|s| - 1], s[|s| - 1];
    FirstsElems(t);
    if j < |Firsts(t)| {
      assert Firsts(s)[..|Firsts(t)|] == Firsts(t);
      if n < |t| {
        FirstsInOrder(t, i, j, n);
        assert s[..n] == t[..n];
      } else {
        FirstsMember(t, Firsts(t)[i]);
        assert Firsts(s)[i] == Firsts(t)[i] && s[..n] == t;
      }
    } else {
      assert Firsts(s)[j] == x && x !in Firsts(t);
      FirstsMember(t, x);
      assert n == |s| - 1;
      FirstsMember(t, Firsts(t)[i]);
      assert Firsts(s)[i] == Firsts(t)[i] && s[..n] == t;
    }
  }

  method DedupSlice<T(==)>(s: seq<T>) returns (res: seq<T>)
    ensures res == Firsts(s)
  {
    if |s| == 0 {
      return s;
    }
    res := [];
    var seen := {};
    for k := 0 to |s|
      invariant res == Firsts(s[..k])
      invariant seen == Elems(res)
    {
      assert s[..k + 1][..k] == s[..k];
      if s[k] !in seen {
        ElemsAppend(res, s[k]);
        res := res + [s[k]];
        seen := seen + {s[k]};
      }
    }
    assert s[..|s|] == s;
  }

  /** What removeDupesStr keeps. */
  function Kept(s: seq<string>): seq<string> {
    Firsts(NonEmpty(s))
  }

  lemma KeptFacts(s: seq<string>)
    ensures Distinct(Kept(s)) && |Kept(s)| <= |s|
    ensures forall x :: x in Kept(s) <==> x in s && x != ""
  {
    NonEmptyElems(s);
    FirstsElems(NonEmpty(s));
  }

  /**
   Compacts the array in place: the kept elements move to the front and the rest
   of the array still holds what it held before.
   */
  method RemoveDupesStr(a: array<string>) returns (n: nat)
    modifies a
    ensures n == |Kept(old(a[..]))| && n <= a.Length
    ensures a[..] == Compacted(old(a[..]))
  {
    ghost var s := a[..];
    n := 0;
    var seen := {};
    for k := 0 to a.Length
      invariant n <= k
      invariant a[..n] == Kept(s[..k])
      invariant a[n..] == s[n..]
      invariant seen == Elems(a[..n])
    {
      var v := a[k];
      assert v == s[k] by { assert a[n..][k - n] == s[n..][k - n]; }
      KeptStep(s, k);
      ghost var front := a[..n];
      assert v in seen <==> v in front;
      if v in seen || v == "" {
        continue;
      }
      seen := seen + {v};
      ghost var before := a[..];
      a[n] := v;
      PutAt(before, n, v, a[..]);
      assert before[n + 1..] == s[n + 1..] by { assert before[n..] == s[n..] && before[n + 1..] == before[n..][1..]; }
      ElemsAppend(front, v);
      n := n + 1;
    }
    assert s[..|s|] == s;
    assert a[..] == a[..n] + a[n..];
  }

  lemma PutAt(s: seq<string>, n: nat, v: string, t: seq<string>)
    requires n < |s| && t == s[n := v]
    ensures t[..n + 1] == s[..n] + [v] && t[n + 1..] == s[n + 1..]
  {
  }

  lemma KeptStep(s: seq<string>, k: nat)
    requires k < |s|
    ensures Kept(s[..k + 1]) == if s[k] == "" || s[k] in Kept(s[..k]) then Kept(s[..k]) else Kept(s[..k]) + [s[k]]
  {
    assert s[..k + 1][..k] == s[..k];
    NonEmptyElems(s[..k]);
    if s[k] != "" {
      var m := NonEmpty(s[..k]) + [s[k]];
      assert NonEmpty(s[..k + 1]) == m;
      assert m[..|m| - 1] == NonEmpty(s[..k]);
    } else {
      assert NonEmpty(s[..k + 1]) == NonEmpty(s[..k]);
    }
  }

  /** The whole backing array after one compaction. */
  function Compacted(s: seq<string>): (r: seq<string>)
    ensures |r| == |s|
  {
    KeptFacts(s);
    Kept(s) + s[|Kept(s)|..]
  }

  /**
   Another slice may still see the whole compacted array. Compacting it again, any
   number of times, keeps the same elements and does not move anything.
   */
  lemma CompactAgain(s: seq<string>)
    ensures Kept(Compacted(s)) == Kept(s)
    ensures Compacted(Compacted(s)) == Compacted(s)
  {
    KeptFacts(s);
    var k := Kept(s);
    var tail := s[|k|..];
    NonEmptyConcat(k, tail);
    NonEmptyAll(k);
    NonEmptyElems(tail);
    forall x | x in NonEmpty(tail) ensures x in k {
      assert x in s;
    }
    FirstsAbsorb(k, NonEmpty(tail));
    FirstsOfDistinct(k);
    assert Compacted(s)[|k|..] == tail;
  }

  ghost predicate EquivalentAt<T(!new)>(eq: (T, T) -> bool, x: T) {
    && eq(x, x)
    && (forall y :: eq(x, y) ==> eq(y, x))
    && (forall y, z :: eq(x, y) && eq(y, z) ==> eq(x, z))
  }

  ghost predicate Equivalence<T(!new)>(eq: (T, T) -> bool) {
    forall x :: EquivalentAt(eq, x)
  }

  /** No two of the elements from `lo` up to `hi` are equal. */
  ghost predicate Unique<T>(eq: (T, T) -> bool, s: seq<T>, lo: int, hi: int)
    requires 0 <= lo && hi <= |s|
  {
    forall i, j :: lo <= i < j < hi ==> !eq(s[i], s[j])
  }

  /** Some element from `lo` up to `hi` equals `x`. */
  ghost predicate Covered<T>(eq: (T, T) -> bool, s: seq<T>, lo: int, hi: int, x: T)
    requires 0 <= lo && hi <= |s|
  {
    exists j :: lo <= j < hi && eq(x, s[j])
  }

  ghost predicate ChoppedCovered<T>(eq: (T, T) -> bool, s: seq<T>, lo: int, n: int)
    requires 0 <= lo && 0 <= n <= |s|
  {
    forall k :: n <= k < |s| ==> Covered(eq, s, lo, n, s[k])
  }

  /** Exchanging a duplicate of `s[i]` with the last kept element and chopping it off. */
  lemma SwapAndChop<T(!new)>(eq: (T, T) -> bool, s: seq<T>, i: nat, j: nat, n: nat)
    requires Equivalence(eq) && i < j < n <= |s| && eq(s[i], s[j]) && Unique(eq, s, i + 1, n)
    requires ChoppedCovered(eq, s, i + 1, n)
    ensures var t := s[j := s[n - 1]][n - 1 := s[j]]; Unique(eq, t, i, n - 1) && ChoppedCovered(eq, t, i, n - 1)
  {
    var t := s[j := s[n - 1]][n - 1 := s[j]];
    assert EquivalentAt(eq, s[i]) && EquivalentAt(eq, s[j]) && EquivalentAt(eq, s[n - 1]);
    forall p, q | i <= p < q < n - 1 ensures !eq(t[p], t[q]) {
      if p == i {
        assert t[q] == if q == j then s[n - 1] else s[q];
        assert !eq(s[j], t[q]);
      }
    }
    forall k | n - 1 <= k < |t| ensures Covered(eq, t, i, n - 1, t[k]) {
      if k == n - 1 {
        assert eq(t[k], t[i]);
      } else {
        assert Covered(eq, s, i + 1, n, s[k]) && EquivalentAt(eq, s[k]);
        var m :| i + 1 <= m < n && eq(s[k], s[m]);
        var m' := if m == j then i else if m == n - 1 then j else m;
        assert eq(t[k], t[m']);
      }
    }
  }

  /** Once everything chopped off is covered, everything is. */
  lemma AllCovered<T(!new)>(eq: (T, T) -> bool, was: seq<T>, s: seq<T>, n: nat)
    requires Equivalence(eq) && n <= |s| && multiset(was) == multiset(s)
    requires ChoppedCovered(eq, s, 0, n)
    ensures forall x :: x in multiset(was) ==> Covered(eq, s, 0, n, x)
  {
    forall x | x in multiset(was) ensures Covered(eq, s, 0, n, x) {
      assert x in multiset(s);
      var k :| 0 <= k < |s| && s[k] == x;
      if k < n {
        assert EquivalentAt(eq, x);
      }
    }
  }

  /** The first element after `i` that equals `a[i]`, or `n`. */
  method FindDuplicate<T>(a: array<T>, eq: (T, T) -> bool, i: nat, n: nat) returns (j: nat)
    requires i < n <= a.Length
    ensures i < j <= n && (j < n ==> eq(a[i], a[j]))
    ensures forall k :: i < k < j ==> !eq(a[i], a[k])
  {
    j := i + 1;
    while j < n && !eq(a[i], a[j])
      invariant i < j <= n
      invariant forall k :: i < k < j ==> !eq(a[i], a[k])
    {
      j := j + 1;
    }
  }

  method Swap<T>(a: array<T>, i: nat, j: nat)
    requires i < a.Length && j < a.Length
    modifies a
    ensures a[..] == old(a[..])[i := old(a[j])][j := old(a[i])]
    ensures multiset(a[..]) == multiset(old(a[..]))
  {
    a[i], a[j] := a[j], a[i];
    assert a[..] == old(a[..])[i := old(a[j])][j := old(a[i])];
  }

  lemma NoDuplicate<T(!new)>(eq: (T, T) -> bool, s: seq<T>, i: nat, n: nat)
    requires i < n <= |s| && Unique(eq, s, i + 1, n)
    requires forall k :: i < k < n ==> !eq(s[i], s[k])
    requires ChoppedCovered(eq, s, i + 1, n)
    ensures Unique(eq, s, i, n) && ChoppedCovered(eq, s, i, n)
  {
    forall k | n <= k < |s| ensures Covered(eq, s, i, n, s[k]) {
      assert Covered(eq, s, i + 1, n, s[k]);
    }
  }

  /** One round: element `i` joins the unique ones after it. */
  method DropDuplicate<T(!new)>(a: array<T>, eq: (T, T) -> bool, i: nat, n: nat) returns (n': nat)
    requires Equivalence(eq) && i < n <= a.Length
    requires Unique(eq, a[..], i + 1, n) && ChoppedCovered(eq, a[..], i + 1, n)
    modifies a
    ensures i < n' <= n
    ensures multiset(a[..]) == multiset(old(a[..]))
    ensures Unique(eq, a[..], i, n') && ChoppedCovered(eq, a[..], i, n')
  {
    var j := FindDuplicate(a, eq, i, n);
    ghost var s := a[..];
    if j < n {
      SwapAndChop(eq, s, i, j, n);
      Swap(a, j, n - 1);
      n' := n - 1;
    } else {
      NoDuplicate(eq, s, i, n);
      n' := n;
    }
  }

  /**
   Walks backwards; a duplicate of the current element is exchanged with the last
   one and chopped off. The array stays a permutation of what it was.
   */
  method RemoveDupes<T(!new)>(a: array<T>, eq: (T, T) -> bool) returns (n: nat)
    requires Equivalence(eq)
    modifies a
    ensures n <= a.Length
    ensures multiset(a[..]) == multiset(old(a[..]))
    ensures Unique(eq, a[..], 0, n)
    ensures forall x :: x in multiset(old(a[..])) ==> Covered(eq, a[..], 0, n, x)
  {
    n := a.Length;
    var i := if n == 0 then 0 else n - 1;
    while i > 0
      invariant 0 <= i <= n <= a.Length && (i == n ==> n == 0)
      invariant multiset(a[..]) == multiset(old(a[..]))
      invariant Unique(eq, a[..], i, n) && ChoppedCovered(eq, a[..], i, n)
    {
      i := i - 1;
      n := DropDuplicate(a, eq, i, n);
    }
    AllCovered(eq, old(a[..]), a[..], n);
  }

  datatype Attest = Attest(typ: string, disabled: bool, attrs: map<string, string>)

  function Types(s: seq<Attest>): (r: seq<string>)
    ensures |r| == |s| && forall i :: 0 <= i < |s| ==> r[i] == s[i].typ
  {
    seq(|s|, i requires 0 <= i < |s| => s[i].typ)
  }

  /** `r` occurs in `s`, and nothing of its type comes after it. */
  ghost predicate IsLast(s: seq<Attest>, r: Attest) {
    exists i :: 0 <= i < |s| && s[i] == r && forall j :: i < j < |s| ==> s[j].typ != r.typ
  }

  lemma IsLastAppend(s: seq<Attest>, a: Attest, r: Attest)
    ensures IsLast(s, r) && a.typ != r.typ ==> IsLast(s + [a], r)
    ensures IsLast(s + [a], a)
  {
    assert (s + [a])[|s|] == a;
    if IsLast(s, r) && a.typ != r.typ {
      var i :| 0 <= i < |s| && s[i] == r && forall j :: i < j < |s| ==> s[j].typ != r.typ;
      assert (s + [a])[i] == r;
    }
  }

  predicate HasType(s: seq<Attest>, typ: string) {
    exists i :: 0 <= i < |s| && s[i].typ == typ
  }

  function Position(s: seq<Attest>, typ: string): (i: nat)
    requires HasType(s, typ)
    ensures i < |s| && s[i].typ == typ
  {
    if s[0].typ == typ then 0
    else
      assert HasType(s[1..], typ) by { var i :| 0 <= i < |s| && s[i].typ == typ; assert s[1..][i - 1] == s[i]; }
      1 + Position(s[1..], typ)
  }

  /** An attestation replaces the earlier one of its type, or goes last. */
  function PutAttest(res: seq<Attest>, att: Attest): seq<Attest> {
    if HasType(res, att.typ) then res[Position(res, att.typ) := att] else res + [att]
  }

  function KeptAttests(s: seq<Attest>): seq<Attest> {
    if s == [] then [] else PutAttest(KeptAttests(s[..|s| - 1]), s[|s| - 1])
  }

  /** `m` gives the index of every type in `res`. */
  ghost predicate Indexed(m: map<string, nat>, res: seq<Attest>) {
    && (forall i :: 0 <= i < |res| ==> res[i].typ in m && m[res[i].typ] == i)
    && (forall t :: t in m ==> m[t] < |res| && res[m[t]].typ == t)
  }

  lemma IndexedPut(m: map<string, nat>, res: seq<Attest>, att: Attest)
    requires Indexed(m, res)
    ensures att.typ in m <==> HasType(res, att.typ)
    ensures att.typ in m ==> m[att.typ] == Position(res, att.typ) && Indexed(m, PutAttest(res, att))
    ensures att.typ !in m ==> Indexed(m[att.typ := |res|], PutAttest(res, att))
  {
    if HasType(res, att.typ) {
      assert res[Position(res, att.typ)].typ in m;
    }
  }

  method RemoveAttestDupes(s: seq<Attest>) returns (res: seq<Attest>)
    ensures res == KeptAttests(s)
  {
    res := [];
    var m: map<string, nat> := map[];
    for k := 0 to |s|
      invariant res == KeptAttests(s[..k])
      invariant Indexed(m, res)
    {
      var att := s[k];
      assert s[..k + 1][..k] == s[..k];
      IndexedPut(m, res, att);
      if att.typ in m {
        res := res[m[att.typ] := att];
      } else {
        m := m[att.typ := |res|];
        res := res + [att];
      }
    }
    assert s[..|s|] == s;
  }

  ghost predicate AllLast(s: seq<Attest>, res: seq<Attest>) {
    forall i :: 0 <= i < |res| ==> IsLast(s, res[i])
  }

  /** One entry per type, in order of first appearance, each the last one given for its type. */
  lemma {:induction false} KeptAttestsFacts(s: seq<Attest>)
    ensures Types(KeptAttests(s)) == Firsts(Types(s))
    ensures AllLast(s, KeptAttests(s))
  {
    if s != [] {
      var t, att := s[..|s| - 1], s[|s| - 1];
      var res := KeptAttests(t);
      KeptAttestsFacts(t);
      assert s == t + [att];
      assert Types(s)[..|t|] == Types(t);
      FirstsElems(Types(t));
      if HasType(res, att.typ) {
        var i := Position(res, att.typ);
        assert Types(res)[i] == att.typ;
        forall j | 0 <= j < |res| && j != i ensures res[j].typ != att.typ {
          assert Types(res)[j] != Types(res)[i];
        }
        AttestReplace(t, res, att, i);
      } else {
        assert forall j :: 0 <= j < |res| ==> Types(res)[j] != att.typ;
        AttestAppend(t, res, att);
      }
    }
  }

  lemma AttestAppend(s: seq<Attest>, res: seq<Attest>, att: Attest)
    requires AllLast(s, res) && att.typ !in Types(res)
    ensures AllLast(s + [att], res + [att]) && Types(res + [att]) == Types(res) + [att.typ]
  {
    forall j | 0 <= j < |res + [att]| ensures IsLast(s + [att], (res + [att])[j]) {
      IsLastAppend(s, att, (res + [att])[j]);
      if j < |res| { assert IsLast(s, res[j]) && Types(res)[j] == res[j].typ; }
    }
  }

  lemma AttestReplace(s: seq<Attest>, res: seq<Attest>, att: Attest, i: nat)
    requires AllLast(s, res) && i < |res| && res[i].typ == att.typ
    requires forall j :: 0 <= j < |res| && j != i ==> res[j].typ != att.typ
    ensures AllLast(s + [att], res[i := att]) && Types(res[i := att]) == Types(res)
  {
    var now := res[i := att];
    forall j | 0 <= j < |now| ensures IsLast(s + [att], now[j]) {
      IsLastAppend(s, att, now[j]);
      if j != i { assert IsLast(s, res[j]); }
    }
  }
}
