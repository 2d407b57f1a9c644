/** Small datatypes shared by the other modules. */
module Common {

  datatype Option<+T> = None | Some(value: T)

  datatype Result<+T, +E> = Ok(value: T) | Err(error: E)

  /** The elements of a sequence, as a set. */
  function Elems<T>(s: seq<T>): set<T> {
    set x | x in s
  }

  predicate Distinct<T(==)>(s: seq<T>) {
    forall i, j :: 0 <= i < j < |s| ==> s[i] != s[j]
  }

  lemma ElemsAppend<T>(s: seq<T>, x: T)
    ensures Elems(s + [x]) == Elems(s) + {x}
  {
  }

  /** A sequence without repetitions is as long as its set of elements. */
  lemma {:induction false} DistinctCount<T>(s: seq<T>)
    requires Distinct(s)
    ensures |Elems(s)| == |s|
  {
    if s != [] {
      var t, x := s[..|s| - 1], s[|s| - 1];
      DistinctCount(t);
      assert x !in t;
      ElemsAppend(t, x);
      assert s == t + [x];
    }
  }

  /** A subset has no more elements than the set around it. */
  lemma {:induction false} SubsetCount<T>(a: set<T>, b: set<T>)
    requires a <= b
    ensures |a| <= |b|
  {
    assert b == a + (b - a);
  }

  lemma ConcatAssoc<T>(a: seq<T>, b: seq<T>, c: seq<T>)
    ensures (a + b) + c == a + (b + c)
  {
  }

  lemma InitLast<T>(s: seq<T>)
    requires s != []
    ensures s == s[..|s| - 1] + [s[|s| - 1]]
  {
  }

  /** Taking `k` off what is left adds it to what is done. */
  lemma OneMoreDone<T>(all: set<T>, todo: set<T>, k: T)
    requires todo <= all && k in todo
    ensures all - (todo - {k}) == all - todo + {k}
    ensures |todo - {k}| < |todo|
  {
    assert todo == (todo - {k}) + {k};
  }

  lemma AllDone<T>(all: set<T>)
    ensures all - {} == all
  {
  }

  /** The sequence without its element at `i`. */
  function DropAt<T>(s: seq<T>, i: nat): seq<T>
    requires i < |s|
  {
    s[..i] + s[i + 1..]
  }

  lemma DropMultiset<T>(s: seq<T>, i: nat)
    requires i < |s|
    ensures multiset(DropAt(s, i)) == multiset(s) - multiset{s[i]} && s[i] in multiset(s)
  {
    assert s == s[..i] + [s[i]] + s[i + 1..];
  }

  lemma PutBack<T>(s: seq<T>, i: nat)
    requires i < |s|
    ensures multiset(DropAt(s, i)) + multiset{s[i]} == multiset(s)
  {
    DropMultiset(s, i);
  }

  /** Where the last element of one sequence stands in another with the same elements. */
  lemma LastIn<T>(s: seq<T>, t: seq<T>) returns (i: nat)
    requires s != [] && multiset(s) == multiset(t)
    ensures i < |t| && t[i] == s[|s| - 1] && multiset(s[..|s| - 1]) == multiset(DropAt(t, i))
  {
    var x := s[|s| - 1];
    assert s == s[..|s| - 1] + [x];
    assert x in multiset(t);
    i :| 0 <= i < |t| && t[i] == x;
    DropMultiset(t, i);
  }

  lemma EmptyLike<T>(s: seq<T>, t: seq<T>)
    requires multiset(s) == multiset(t) && s == []
    ensures t == []
  {
    assert |multiset(t)| == |t|;
  }

  function Mapped<A, B>(s: seq<A>, f: A -> B): (r: seq<B>)
    ensures |r| == |s| && forall i :: 0 <= i < |s| ==> r[i] == f(s[i])
  {
    seq(|s|, i requires 0 <= i < |s| => f(s[i]))
  }

  lemma MappedTwo<A, B>(s: seq<A>, x: A, y: A, f: A -> B)
    ensures Mapped(s + [x] + [y], f) == Mapped(s, f) + [f(x)] + [f(y)]
  {
  }

  /** A reordered sequence is mapped to a reordered sequence. */
  lemma {:induction false} MappedMultiset<A, B>(s: seq<A>, t: seq<A>, f: A -> B)
    requires multiset(s) == multiset(t)
    ensures multiset(Mapped(s, f)) == multiset(Mapped(t, f))
    decreases |s|
  {
    if s == [] {
      EmptyLike(s, t);
    } else {
      var i := LastIn(s, t);
      var u := s[..|s| - 1];
      MappedMultiset(u, DropAt(t, i), f);
      assert Mapped(s, f) == Mapped(u, f) + [f(t[i])];
      DropMultiset(Mapped(t, f), i);
      assert Mapped(DropAt(t, i), f) == DropAt(Mapped(t, f), i);
    }
  }
}
