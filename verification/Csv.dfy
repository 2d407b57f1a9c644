/**
 Settings on the command line are written as comma-separated fields, each a key, an
 equals sign and a value.
 */
module Csv {
  import opened Common
  import opened Texts
  import opened CsvLine

  const EQ := '='

  datatype Pair = Pair(key: string, value: string)

  function Field(p: Pair): string {
    p.key + [EQ] + p.value
  }

  function FieldsOf(ps: seq<Pair>): (fs: seq<string>)
    ensures |fs| == |ps| && forall i :: 0 <= i < |ps| ==> fs[i] == Field(ps[i])
  {
    seq(|ps|, i requires 0 <= i < |ps| => Field(ps[i]))
  }

  /** The text of some pairs. */
  function Text(ps: seq<Pair>): string {
    if ps == [] then "" else Joined(FieldsOf(ps), COMMA)
  }

  lemma TextOneMore(ps: seq<Pair>, p: Pair)
    ensures Text(ps + [p]) == if ps == [] then Field(p) else Text(ps) + [COMMA] + Field(p)
    ensures ps != [] ==> Text(ps) != ""
  {
    var fs := FieldsOf(ps + [p]);
    assert fs[..|ps|] == FieldsOf(ps);
    if ps != [] {
      assert |FieldsOf(ps)[|ps| - 1]| > 0;
    }
  }

  /** Alphabetical order. */
  predicate Leq(a: string, b: string) {
    a == "" || (b != "" && (a[0] < b[0] || (a[0] == b[0] && Leq(a[1..], b[1..]))))
  }

  lemma {:induction false} LeqTotal(a: string, b: string)
    ensures Leq(a, b) || Leq(b, a)
  {
    if a != "" && b != "" {
      LeqTotal(a[1..], b[1..]);
    }
  }

  lemma {:induction false} LeqTransitive(a: string, b: string, c: string)
    requires Leq(a, b) && Leq(b, c)
    ensures Leq(a, c)
  {
    if a != "" && a[0] == b[0] == c[0] {
      LeqTransitive(a[1..], b[1..], c[1..]);
    }
  }

  lemma {:induction false} LeqAntisymmetric(a: string, b: string)
    requires Leq(a, b) && Leq(b, a)
    ensures a == b
  {
    if a != "" {
      LeqAntisymmetric(a[1..], b[1..]);
      assert a == [a[0]] + a[1..] && b == [b[0]] + b[1..];
    }
  }

  /** The first difference decides; without one the shorter text comes first. */
  lemma {:induction false} LeqMeans(p: string, a: string, b: string)
    ensures Leq(p, p + b)
    ensures a != "" && b != "" && a[0] != b[0] ==> (Leq(p + a, p + b) <==> a[0] < b[0])
  {
    if p == "" {
      assert p + a == a && p + b == b;
    } else {
      LeqMeans(p[1..], a, b);
      assert (p + a)[1..] == p[1..] + a && (p + b)[1..] == p[1..] + b;
    }
  }

  predicate IsLast(ks: set<string>, k: string) {
    k in ks && forall j :: j in ks ==> Leq(j, k)
  }

  lemma {:induction false} LastExists(ks: set<string>)
    requires ks != {}
    ensures exists k :: IsLast(ks, k)
  {
    var k :| k in ks;
    LeqTotal(k, k);
    if exists j :: j in ks && !Leq(j, k) {
      var j :| j in ks && !Leq(j, k);
      var above := set x | x in ks && Leq(j, x);
      LeqTotal(j, j);
      assert k !in above && j in above;
      assert above < ks;
      LastExists(above);
      var l :| IsLast(above, l);
      forall x | x in ks ensures Leq(x, l) {
        LeqTotal(j, x);
        if !Leq(j, x) {
          LeqTransitive(x, j, l);
        }
      }
      assert IsLast(ks, l);
    } else {
      assert IsLast(ks, k);
    }
  }

  /** The keys in alphabetical order. */
  ghost predicate IsSorted(r: seq<string>, ks: set<string>) {
    Elems(r) == ks && Distinct(r) && forall i, j :: 0 <= i < j < |r| ==> Leq(r[i], r[j])
  }

  ghost function SortedKeys(ks: set<string>): seq<string> {
    if ks == {} then []
    else
      LastExists(ks);
      var k :| IsLast(ks, k);
      SortedKeys(ks - {k}) + [k]
  }

  lemma SortedWithLast(t: seq<string>, ks: set<string>, k: string)
    requires IsLast(ks, k) && IsSorted(t, ks - {k})
    ensures IsSorted(t + [k], ks)
  {
    ElemsAppend(t, k);
    forall i | 0 <= i < |t| ensures t[i] in ks && t[i] != k {
      assert t[i] in Elems(t);
    }
  }

  lemma {:induction false} SortedKeysSorted(ks: set<string>)
    ensures IsSorted(SortedKeys(ks), ks)
  {
    if ks != {} {
      LastExists(ks);
      var s := SortedKeys(ks);
      var t, k := s[..|s| - 1], s[|s| - 1];
      assert s == t + [k] && IsLast(ks, k) && t == SortedKeys(ks - {k});
      SortedKeysSorted(ks - {k});
      SortedWithLast(t, ks, k);
    }
  }

  /** There is only one way to sort. */
  lemma {:induction false} SortedOnce(a: seq<string>, b: seq<string>, ks: set<string>)
    requires IsSorted(a, ks) && IsSorted(b, ks)
    ensures a == b
  {
    DistinctCount(a);
    DistinctCount(b);
    if a != [] {
      var n := |a| - 1;
      assert a[n] in ks && b[n] in ks;
      SortedEnds(a, ks);
      SortedEnds(b, ks);
      LeqAntisymmetric(a[n], b[n]);
      SortedOnce(a[..n], b[..n], ks - {a[n]});
      assert a == a[..n] + [a[n]] && b == b[..n] + [b[n]];
    }
  }

  lemma SortedEnds(a: seq<string>, ks: set<string>)
    requires IsSorted(a, ks) && a != []
    ensures IsLast(ks, a[|a| - 1]) && IsSorted(a[..|a| - 1], ks - {a[|a| - 1]})
  {
    var t, k := a[..|a| - 1], a[|a| - 1];
    LeqTotal(k, k);
    assert a == t + [k] && k !in t;
    ElemsAppend(t, k);
    forall j | j in ks ensures Leq(j, k) {
      assert j in Elems(a);
    }
  }

  /** Sorting, by taking a first one of the remaining keys. */
  method SortKeys(ks: set<string>) returns (r: seq<string>)
    ensures r == SortedKeys(ks)
  {
    r := [];
    var todo := ks;
    while todo != {}
      invariant SortedSoFar(r, ks, todo)
    {
      FirstExists(todo);
      var k :| k in todo && forall j :: j in todo ==> Leq(k, j);
      OneMoreSorted(r, ks, todo, k);
      r := r + [k];
      todo := todo - {k};
    }
    AllDone(ks);
    SortedKeysSorted(ks);
    SortedOnce(r, SortedKeys(ks), ks);
  }

  /** The keys taken so far are sorted and come before the others. */
  ghost predicate SortedSoFar(r: seq<string>, ks: set<string>, todo: set<string>) {
    todo <= ks && IsSorted(r, ks - todo) && forall i, k :: 0 <= i < |r| && k in todo ==> Leq(r[i], k)
  }

  lemma OneMoreSorted(r: seq<string>, ks: set<string>, todo: set<string>, k: string)
    requires SortedSoFar(r, ks, todo) && k in todo && forall j :: j in todo ==> Leq(k, j)
    ensures SortedSoFar(r + [k], ks, todo - {k}) && |todo - {k}| < |todo|
  {
    ElemsAppend(r, k);
    assert k !in Elems(r);
    OneMoreDone(ks, todo, k);
  }

  lemma FirstExists(ks: set<string>)
    requires ks != {}
    ensures exists k :: k in ks && forall j :: j in ks ==> Leq(k, j)
  {
    SortedKeysSorted(ks);
    var s := SortedKeys(ks);
    LeqTotal(s[0], s[0]);
    assert s[0] in Elems(s);
    forall j | j in ks ensures Leq(s[0], j) {
      assert j in Elems(s);
    }
  }

  /** The pairs of a map, in alphabetical order of their keys. */
  ghost function SortedPairs(attrs: map<string, string>): (ps: seq<Pair>)
    ensures |ps| == |SortedKeys(attrs.Keys)|
    ensures forall i :: 0 <= i < |ps| ==> ps[i].key == SortedKeys(attrs.Keys)[i] && ps[i].key in attrs && ps[i].value == attrs[ps[i].key]
  {
    var ks := SortedKeys(attrs.Keys);
    SortedKeysSorted(attrs.Keys);
    assert forall i :: 0 <= i < |ks| ==> ks[i] in Elems(ks);
    seq(|ks|, i requires 0 <= i < |ks| => Pair(ks[i], attrs[ks[i]]))
  }

  lemma SortedOne(k: string)
    ensures SortedKeys({k}) == [k]
  {
    SortedKeysSorted({k});
    var s := SortedKeys({k});
    DistinctCount(s);
    assert s[0] in Elems(s);
  }

  lemma SortedOnePair(k: string, v: string)
    ensures SortedPairs(map[k := v]) == [Pair(k, v)]
  {
    assert map[k := v].Keys == {k};
    SortedOne(k);
  }

  lemma SortedNone(attrs: map<string, string>)
    requires |attrs| == 0
    ensures SortedPairs(attrs) == []
  {
    assert attrs.Keys == {};
  }

  class CsvBuilder {
    var sb: string
    ghost var written: seq<Pair>

    ghost predicate Valid()
      reads this
    {
      sb == Text(written)
    }

    constructor ()
      ensures Valid() && written == []
    {
      sb := "";
      written := [];
    }

    method Write(key: string, value: string)
      requires Valid()
      modifies this
      ensures Valid() && written == old(written) + [Pair(key, value)]
    {
      TextOneMore(written, Pair(key, value));
      if |sb| > 0 {
        sb := sb + [COMMA];
      }
      sb := sb + key;
      sb := sb + [EQ];
      sb := sb + value;
      written := written + [Pair(key, value)];
      assert sb == Text(written) by { Assemble(old(sb), key, value); }
    }

    method WriteAttributes(attrs: map<string, string>)
      requires Valid()
      modifies this
      ensures Valid() && written == old(written) + SortedPairs(attrs)
    {
      var keys := SortKeys(attrs.Keys);
      ghost var ps, start := SortedPairs(attrs), written;
      for i := 0 to |keys|
        invariant Valid() && written == start + ps[..i]
      {
        assert ps[i].key == keys[i];
        Write(keys[i], attrs[keys[i]]);
        OneMoreOf(start, ps, i);
      }
      assert ps[..|ps|] == ps;
    }
  }

  lemma OneMoreOf(start: seq<Pair>, ps: seq<Pair>, i: nat)
    requires i < |ps|
    ensures start + ps[..i] + [ps[i]] == start + ps[..i + 1]
  {
  }

  lemma Assemble(sb: string, key: string, value: string)
    ensures sb + [COMMA] + key + [EQ] + value == sb + [COMMA] + Field(Pair(key, value))
    ensures "" + key + [EQ] + value == Field(Pair(key, value))
  {
  }

  /** Cutting a field at its first equals sign. */
  function Cut(f: string): (r: Option<Pair>)
    ensures r.None? <==> EQ !in f
    ensures r.Some? ==> f == Field(r.value) && EQ !in r.value.key
  {
    match CutAt(f, EQ)
    case None => None
    case Some((k, v)) => Some(Pair(k, v))
  }

  lemma CutField(p: Pair)
    requires EQ !in p.key
    ensures Cut(Field(p)) == Some(p)
  {
    CutAtFirst(p.key, p.value, EQ);
  }

  type Norm = string -> string

  /** The values that fields give to their keys, the last one for each key. */
  function Assigned(fs: seq<string>, norm: Norm): Option<map<string, string>> {
    if fs == [] then Some(map[])
    else
      match (Assigned(fs[..|fs| - 1], norm), Cut(fs[|fs| - 1]))
      case (Some(m), Some(p)) => Some(m[norm(p.key) := p.value])
      case _ => None
  }

  lemma {:induction false} AssignedStops(fs: seq<string>, i: nat, norm: Norm)
    requires i <= |fs| && Assigned(fs[..i], norm).None?
    ensures Assigned(fs, norm).None?
    decreases |fs| - i
  {
    if i == |fs| {
      assert fs[..i] == fs;
    } else {
      assert fs[..i + 1][..i] == fs[..i];
      AssignedStops(fs, i + 1, norm);
    }
  }

  function MapOf(ps: seq<Pair>): map<string, string> {
    if ps == [] then map[] else MapOf(ps[..|ps| - 1])[ps[|ps| - 1].key := ps[|ps| - 1].value]
  }

  /** Neither commas nor quotes. */
  predicate Free(s: string) {
    COMMA !in s && QUOTE !in s
  }

  /** A pair that survives being written and read. */
  predicate Plain(p: Pair, norm: Norm) {
    EQ !in p.key && Free(p.key) && Free(p.value) && norm(p.key) == p.key
  }

  predicate AllPlain(ps: seq<Pair>, norm: Norm) {
    forall i :: 0 <= i < |ps| ==> Plain(ps[i], norm)
  }

  lemma {:induction false} AssignedFields(ps: seq<Pair>, norm: Norm)
    requires AllPlain(ps, norm)
    ensures Assigned(FieldsOf(ps), norm) == Some(MapOf(ps))
  {
    if ps != [] {
      var t, p := ps[..|ps| - 1], ps[|ps| - 1];
      AssignedFields(t, norm);
      assert FieldsOf(ps)[..|ps| - 1] == FieldsOf(t);
      CutField(p);
    }
  }

  lemma {:induction false} TextFree(ps: seq<Pair>, norm: Norm)
    requires AllPlain(ps, norm)
    ensures QUOTE !in Text(ps)
  {
    if ps != [] {
      var t, p := ps[..|ps| - 1], ps[|ps| - 1];
      TextFree(t, norm);
      assert ps == t + [p];
      TextOneMore(t, p);
      assert Plain(p, norm);
    }
  }

  lemma FieldsFree(ps: seq<Pair>, norm: Norm)
    requires AllPlain(ps, norm)
    ensures AllFree(FieldsOf(ps), COMMA)
  {
    forall i | 0 <= i < |ps| ensures COMMA !in FieldsOf(ps)[i] {
      assert Plain(ps[i], norm);
    }
  }

  /** Plain pairs are read back from their text, unless it ends with a line break. */
  lemma TextRead(ps: seq<Pair>, norm: Norm)
    requires ps != [] && AllPlain(ps, norm) && Simple(Text(ps))
    ensures CsvLine.Fields(Text(ps)) == Some(FieldsOf(ps))
    ensures Assigned(FieldsOf(ps), norm) == Some(MapOf(ps))
  {
    FieldsFree(ps, norm);
    SplitJoined(FieldsOf(ps), COMMA);
    AssignedFields(ps, norm);
    TextNotEmpty(ps);
    SimpleFields(Text(ps));
  }

  lemma TextNotEmpty(ps: seq<Pair>)
    requires ps != []
    ensures Text(ps) != ""
  {
    assert ps == ps[..|ps| - 1] + [ps[|ps| - 1]];
    TextOneMore(ps[..|ps| - 1], ps[|ps| - 1]);
  }

  lemma SimpleParts(s: string)
    requires Simple(s)
    ensures forall i :: 0 <= i < |Split(s, COMMA)| ==> Free(Split(s, COMMA)[i])
  {
    SplitParts(s, COMMA);
    PartsFree(s, QUOTE);
  }

  lemma {:induction false} PartsFree(s: string, x: char)
    requires x !in s
    ensures AllFree(Split(s, COMMA), x)
  {
    if s != "" {
      PartsFree(s[..|s| - 1], x);
    }
  }

  /** What is read is plain. */
  ghost predicate PlainMap(m: map<string, string>, norm: Norm) {
    forall k :: k in m ==> Plain(Pair(k, m[k]), norm)
  }

  /** Reading a key twice changes nothing, and brings in no separator. */
  ghost predicate Settles(norm: Norm) {
    forall s: string :: SettlesAt(norm, s)
  }

  ghost predicate SettlesAt(norm: Norm, s: string) {
    norm(norm(s)) == norm(s) && (EQ !in s ==> EQ !in norm(s)) && (Free(s) ==> Free(norm(s)))
  }

  lemma {:induction false} AssignedPlain(fs: seq<string>, norm: Norm)
    requires Settles(norm) && (forall i :: 0 <= i < |fs| ==> Free(fs[i])) && Assigned(fs, norm).Some?
    ensures PlainMap(Assigned(fs, norm).value, norm)
  {
    if fs != [] {
      AssignedPlain(fs[..|fs| - 1], norm);
      var f := fs[|fs| - 1];
      var p := Cut(f).value;
      assert Free(f);
      assert forall c :: c in p.key ==> c in f;
      assert forall c :: c in p.value ==> c in f;
      assert SettlesAt(norm, p.key);
    }
  }

  lemma {:induction false} MapOfConcat(a: seq<Pair>, b: seq<Pair>)
    ensures MapOf(a + b) == MapOf(a) + MapOf(b)
  {
    if b == [] {
      assert a + b == a;
    } else {
      assert (a + b)[..|a + b| - 1] == a + b[..|b| - 1];
      MapOfConcat(a, b[..|b| - 1]);
    }
  }

  lemma {:induction false} MapOfPairs(ps: seq<Pair>, m: map<string, string>)
    requires forall i :: 0 <= i < |ps| ==> ps[i].key in m && m[ps[i].key] == ps[i].value
    ensures forall k :: k in MapOf(ps) <==> exists i :: 0 <= i < |ps| && ps[i].key == k
    ensures forall k :: k in MapOf(ps) ==> k in m && MapOf(ps)[k] == m[k]
  {
    if ps != [] {
      MapOfPairs(ps[..|ps| - 1], m);
    }
  }

  /** The sorted pairs of a map make up the map. */
  lemma MapOfSorted(attrs: map<string, string>)
    ensures MapOf(SortedPairs(attrs)) == attrs
  {
    var ps := SortedPairs(attrs);
    MapOfPairs(ps, attrs);
    forall k | k in attrs ensures k in MapOf(ps) {
      var i := SortedAt(attrs, k);
      assert ps[i].key == k;
    }
  }

  /** The field is a pair whose key is read as `k`. */
  predicate Gives(f: string, norm: Norm, k: string) {
    Cut(f).Some? && norm(Cut(f).value.key) == k
  }

  lemma AssignedOneMore(fs: seq<string>, norm: Norm)
    requires fs != [] && Assigned(fs, norm).Some?
    ensures var t, p := Assigned(fs[..|fs| - 1], norm), Cut(fs[|fs| - 1]);
            t.Some? && p.Some? && Assigned(fs, norm).value == t.value[norm(p.value.key) := p.value.value]
  {
  }

  lemma AssignedLast(fs: seq<string>, norm: Norm)
    requires fs != []
    ensures Assigned(fs, norm).Some? <==> Assigned(fs[..|fs| - 1], norm).Some? && EQ in fs[|fs| - 1]
  {
  }

  /** Fields can be read exactly when each of them is a pair. */
  lemma {:induction false} AllPairs(fs: seq<string>, norm: Norm)
    ensures Assigned(fs, norm).Some? <==> forall i :: 0 <= i < |fs| ==> EQ in fs[i]
  {
    if fs != [] {
      var t, n := fs[..|fs| - 1], |fs| - 1;
      AllPairs(t, norm);
      AssignedLast(fs, norm);
      assert forall i :: 0 <= i < n ==> t[i] == fs[i];
    }
  }

  /** The value of the last field that gives `k`. */
  function LastValue(fs: seq<string>, norm: Norm, k: string): Option<string> {
    if fs == [] then None
    else if Gives(fs[|fs| - 1], norm, k) then Some(Cut(fs[|fs| - 1]).value.value)
    else LastValue(fs[..|fs| - 1], norm, k)
  }

  function Lookup(m: map<string, string>, k: string): Option<string> {
    if k in m then Some(m[k]) else None
  }

  /** A key has the value that was given for it last, and none if no field gives it. */
  lemma {:induction false} ValueGiven(fs: seq<string>, norm: Norm, k: string)
    requires Assigned(fs, norm).Some?
    ensures Lookup(Assigned(fs, norm).value, k) == LastValue(fs, norm, k)
  {
    if fs != [] {
      AssignedOneMore(fs, norm);
      ValueGiven(fs[..|fs| - 1], norm, k);
    }
  }

  predicate Space(c: char) {
    c in " \t\n\r" || c as int == 0x0B || c as int == 0x0C
  }

  function TrimLeft(s: string): (r: string)
    ensures r == "" || !Space(r[0])
    ensures forall c :: c in r ==> c in s
    ensures s != "" && !Space(s[0]) ==> r == s
  {
    if s != "" && Space(s[0]) then TrimLeft(s[1..]) else s
  }

  function TrimRight(s: string): (r: string)
    ensures r == "" || !Space(r[|r| - 1])
    ensures r <= s
    ensures s != "" && !Space(s[|s| - 1]) ==> r == s
  {
    if s != "" && Space(s[|s| - 1]) then TrimRight(s[..|s| - 1]) else s
  }

  function TrimSpace(s: string): (r: string)
    ensures forall c :: c in r ==> c in s
  {
    TrimRight(TrimLeft(s))
  }

  function TrimLower(s: string): string {
    TrimSpace(ToLower(s))
  }

  lemma {:induction false} TrimLeftDrops(a: string, t: string)
    requires (forall i :: 0 <= i < |a| ==> Space(a[i])) && (t == "" || !Space(t[0]))
    ensures TrimLeft(a + t) == t
  {
    if a == "" {
      assert a + t == t;
    } else {
      assert (a + t)[1..] == a[1..] + t && (a + t)[0] == a[0];
      TrimLeftDrops(a[1..], t);
    }
  }

  lemma {:induction false} TrimRightDrops(t: string, b: string)
    requires (forall i :: 0 <= i < |b| ==> Space(b[i])) && (t == "" || !Space(t[|t| - 1]))
    ensures TrimRight(t + b) == t
  {
    if b == "" {
      assert t + b == t;
    } else {
      assert (t + b)[..|t + b| - 1] == t + b[..|b| - 1] && (t + b)[|t + b| - 1] == b[|b| - 1];
      TrimRightDrops(t, b[..|b| - 1]);
    }
  }

  lemma LowerConcat(a: string, b: string)
    ensures ToLower(a + b) == ToLower(a) + ToLower(b)
  {
  }

  lemma LowerSpaces(a: string)
    requires forall i :: 0 <= i < |a| ==> Space(a[i])
    ensures ToLower(a) == a
  {
  }

  lemma TrimDrops(a: string, t: string, b: string)
    requires (forall i :: 0 <= i < |a| ==> Space(a[i])) && (forall i :: 0 <= i < |b| ==> Space(b[i]))
    requires t != "" ==> !Space(t[0]) && !Space(t[|t| - 1])
    ensures TrimSpace(a + t + b) == t
  {
    ConcatAssoc(a, t, b);
    if t == "" {
      assert a + t + b == (a + b) + "";
      TrimLeftDrops(a + b, "");
    } else {
      TrimLeftDrops(a, t + b);
      TrimRightDrops(t, b);
    }
  }

  /** Keys are read without the spaces around them and without regard to case. */
  lemma TrimLowerMeans(a: string, t: string, b: string)
    requires (forall i :: 0 <= i < |a| ==> Space(a[i])) && (forall i :: 0 <= i < |b| ==> Space(b[i]))
    requires t != "" ==> !Space(t[0]) && !Space(t[|t| - 1])
    ensures TrimLower(a + t + b) == ToLower(t)
  {
    LowerConcat(a + t, b);
    LowerConcat(a, t);
    LowerSpaces(a);
    LowerSpaces(b);
    TrimDrops(a, ToLower(t), b);
  }

  lemma LowerSettles()
    ensures Settles(ToLower)
  {
    forall s: string ensures SettlesAt(ToLower, s) {
      LowerOnce(s);
    }
  }

  lemma LowerOnce(s: string)
    ensures ToLower(ToLower(s)) == ToLower(s) && (EQ !in s ==> EQ !in ToLower(s)) && (Free(s) ==> Free(ToLower(s)))
  {
    var l := ToLower(s);
    assert forall i :: 0 <= i < |s| ==> l[i] == Lower(s[i]) && (l[i] == EQ ==> s[i] == EQ) && (l[i] == COMMA ==> s[i] == COMMA) && (l[i] == QUOTE ==> s[i] == QUOTE);
  }

  lemma TrimOnce(s: string)
    ensures TrimLower(TrimLower(s)) == TrimLower(s) && (EQ !in s ==> EQ !in TrimLower(s)) && (Free(s) ==> Free(TrimLower(s)))
  {
    LowerOnce(s);
    LowerOfPart(s, TrimLower(s));
    TrimTwice(ToLower(s));
  }

  lemma LowerOfPart(s: string, t: string)
    requires forall c :: c in t ==> c in ToLower(s)
    ensures ToLower(t) == t
  {
    forall i | 0 <= i < |t| ensures Lower(t[i]) == t[i] {
      assert t[i] in ToLower(s);
    }
  }

  lemma TrimTwice(s: string)
    ensures TrimSpace(TrimSpace(s)) == TrimSpace(s)
  {
    var l := TrimLeft(s);
    var t := TrimRight(l);
    assert t != "" ==> t[0] == l[0];
  }

  lemma TrimLowerSettles()
    ensures Settles(TrimLower)
  {
    forall s: string ensures SettlesAt(TrimLower, s) {
      TrimOnce(s);
    }
  }

  /** A name of lower-case letters only is read as it is. */
  predicate LowerLetters(k: string) {
    k != "" && forall i :: 0 <= i < |k| ==> 'a' <= k[i] <= 'z'
  }

  lemma NameSettled(k: string)
    requires LowerLetters(k)
    ensures ToLower(k) == k && TrimLower(k) == k && EQ !in k && Free(k)
  {
    assert ToLower(k) == k;
    assert !Space(k[0]) && !Space(k[|k| - 1]);
  }

  /** Reading a key does not make `c` more frequent. */
  ghost predicate Sparing(norm: Norm, c: char) {
    forall s: string :: SparingAt(norm, c, s)
  }

  ghost predicate SparingAt(norm: Norm, c: char, s: string) {
    Count(norm(s), c) <= Count(s, c)
  }

  /** Quotes and line breaks, which reading a line may lose. */
  predicate Lossy(c: char) {
    c == QUOTE || c == NL
  }

  lemma {:induction false} LowerCount(s: string, c: char)
    requires Lossy(c)
    ensures Count(ToLower(s), c) == Count(s, c)
  {
    if s != "" {
      LowerCount(s[..|s| - 1], c);
      assert ToLower(s)[..|s| - 1] == ToLower(s[..|s| - 1]);
    }
  }

  lemma {:induction false} TrimLeftCount(s: string, c: char)
    ensures Count(TrimLeft(s), c) <= Count(s, c)
  {
    if s != "" && Space(s[0]) {
      TrimLeftCount(s[1..], c);
      CountFirst(s, c);
    }
  }

  lemma {:induction false} TrimRightCount(s: string, c: char)
    ensures Count(TrimRight(s), c) <= Count(s, c)
  {
    if s != "" && Space(s[|s| - 1]) {
      TrimRightCount(s[..|s| - 1], c);
    }
  }

  lemma LowerSparing(c: char)
    requires Lossy(c)
    ensures Sparing(ToLower, c)
  {
    forall s: string ensures SparingAt(ToLower, c, s) {
      LowerCount(s, c);
    }
  }

  lemma TrimLowerSparing(c: char)
    requires Lossy(c)
    ensures Sparing(TrimLower, c)
  {
    forall s: string ensures SparingAt(TrimLower, c, s) {
      LowerCount(s, c);
      TrimLeftCount(ToLower(s), c);
      TrimRightCount(TrimLeft(ToLower(s)), c);
    }
  }

  /** How often `c` occurs in some pairs. */
  function PairCount(ps: seq<Pair>, c: char): nat {
    if ps == [] then 0
    else PairCount(ps[..|ps| - 1], c) + Count(ps[|ps| - 1].key, c) + Count(ps[|ps| - 1].value, c)
  }

  lemma {:induction false} CountText(ps: seq<Pair>, c: char)
    requires Lossy(c)
    ensures Count(Text(ps), c) == PairCount(ps, c)
  {
    if ps != [] {
      var t, p := ps[..|ps| - 1], ps[|ps| - 1];
      CountText(t, c);
      assert ps == t + [p];
      TextOneMore(t, p);
      CountThree(p.key, EQ, p.value, c);
      CountThree(Text(t), COMMA, Field(p), c);
    }
  }

  lemma {:induction false} PairCountDrop(ps: seq<Pair>, i: nat, c: char)
    requires i < |ps|
    ensures PairCount(ps, c) == PairCount(DropAt(ps, i), c) + Count(ps[i].key, c) + Count(ps[i].value, c)
  {
    var n := |ps| - 1;
    if i == n {
      assert DropAt(ps, i) == ps[..n];
    } else {
      PairCountDrop(ps[..n], i, c);
      assert DropAt(ps, i)[..n - 1] == DropAt(ps[..n], i);
    }
  }

  /** What a text does not hold, none of its values holds. */
  lemma ValueFree(ps: seq<Pair>, i: nat, c: char)
    requires Lossy(c) && i < |ps| && c !in Text(ps)
    ensures c !in ps[i].value
  {
    CountText(ps, c);
    CountZero(Text(ps), c);
    PairCountDrop(ps, i, c);
    CountZero(ps[i].value, c);
  }

  /** Where a key of a map stands among its sorted pairs. */
  lemma SortedAt(attrs: map<string, string>, k: string) returns (i: nat)
    requires k in attrs
    ensures i < |SortedPairs(attrs)| && SortedPairs(attrs)[i] == Pair(k, attrs[k])
  {
    SortedKeysSorted(attrs.Keys);
    var ks := SortedKeys(attrs.Keys);
    assert k in Elems(ks);
    i :| 0 <= i < |ks| && ks[i] == k;
  }

  /** No two pairs have the same key. */
  ghost predicate DistinctKeys(ps: seq<Pair>) {
    forall i, j :: 0 <= i < j < |ps| ==> ps[i].key != ps[j].key
  }

  /** The pairs are among the values, but for a value that may have lost some `c`. */
  ghost predicate Among(ps: seq<Pair>, m: map<string, string>, c: char) {
    forall i :: 0 <= i < |ps| ==> ps[i].key in m && Count(ps[i].value, c) <= Count(m[ps[i].key], c)
  }

  /** Pairs that were read hold no more of a character than the fields they were read from. */
  lemma {:induction false} AssignedCount(fs: seq<string>, norm: Norm, ps: seq<Pair>, c: char)
    requires Lossy(c) && Sparing(norm, c) && Assigned(fs, norm).Some? && DistinctKeys(ps) && Among(ps, Assigned(fs, norm).value, c)
    ensures PairCount(ps, c) <= Total(fs, c)
  {
    if fs != [] {
      var t, f := fs[..|fs| - 1], fs[|fs| - 1];
      var p := Cut(f).value;
      CountThree(p.key, EQ, p.value, c);
      assert SparingAt(norm, c, p.key);
      if i :| 0 <= i < |ps| && ps[i].key == norm(p.key) {
        PairCountDrop(ps, i, c);
        DropAmong(ps, i, Assigned(t, norm).value, norm(p.key), p.value, c);
        AssignedCount(t, norm, DropAt(ps, i), c);
      } else {
        AssignedCount(t, norm, ps, c);
      }
    }
  }

  lemma DropAmong(ps: seq<Pair>, i: nat, m: map<string, string>, k: string, v: string, c: char)
    requires i < |ps| && ps[i].key == k && DistinctKeys(ps) && Among(ps, m[k := v], c)
    ensures DistinctKeys(DropAt(ps, i)) && Among(DropAt(ps, i), m, c) && Count(ps[i].value, c) <= Count(v, c)
  {
    var qs := DropAt(ps, i);
    assert forall a :: 0 <= a < |qs| ==> qs[a] == ps[if a < i then a else a + 1];
    forall a | 0 <= a < |qs| ensures qs[a].key in m && Count(qs[a].value, c) <= Count(m[qs[a].key], c) {
      assert qs[a].key != k;
    }
  }

  /** A text whose own pairs are read from it is simple: nothing was quoted, and no line break fell off. */
  lemma ReadBackSimple(ps: seq<Pair>, norm: Norm)
    requires Sparing(norm, QUOTE) && Sparing(norm, NL) && DistinctKeys(ps)
    requires CsvLine.Fields(Text(ps)).Some? && Assigned(CsvLine.Fields(Text(ps)).value, norm).Some?
    requires Among(ps, Assigned(CsvLine.Fields(Text(ps)).value, norm).value, QUOTE)
    requires Among(ps, Assigned(CsvLine.Fields(Text(ps)).value, norm).value, NL)
    ensures Simple(Text(ps))
  {
    var fs := CsvLine.Fields(Text(ps)).value;
    AssignedCount(fs, norm, ps, QUOTE);
    AssignedCount(fs, norm, ps, NL);
    CountText(ps, QUOTE);
    CountText(ps, NL);
    NothingDropped(Text(ps));
  }

  // What holds of some leading pairs and of a map holds of them with the sorted pairs behind.

  lemma PlainBehind(head: seq<Pair>, attrs: map<string, string>, norm: Norm)
    requires AllPlain(head, norm) && PlainMap(attrs, norm)
    ensures AllPlain(head + SortedPairs(attrs), norm)
  {
    var ps := SortedPairs(attrs);
    forall i | 0 <= i < |ps| ensures Plain(ps[i], norm) {
      assert Plain(Pair(ps[i].key, attrs[ps[i].key]), norm);
    }
  }

  lemma DistinctBehind(head: seq<Pair>, attrs: map<string, string>)
    requires DistinctKeys(head) && forall i :: 0 <= i < |head| ==> head[i].key !in attrs
    ensures DistinctKeys(head + SortedPairs(attrs))
  {
    SortedKeysSorted(attrs.Keys);
    var ps := SortedPairs(attrs);
    assert DistinctKeys(ps);
    assert forall i :: 0 <= i < |ps| ==> ps[i].key in attrs;
  }

  lemma AmongBehind(head: seq<Pair>, attrs: map<string, string>, m: map<string, string>, c: char)
    requires Among(head, m, c) && forall k :: k in attrs ==> k in m && m[k] == attrs[k]
    ensures Among(head + SortedPairs(attrs), m, c)
  {
    var ps := SortedPairs(attrs);
    assert forall i :: 0 <= i < |ps| ==> ps[i].key in attrs && ps[i].value == attrs[ps[i].key];
  }
}
