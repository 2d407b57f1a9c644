/**
 Reachability and cycles of a directed graph given by its edge relation. The
 four graph searches of the repository (names, groups, inherits, links) are
 specified with these notions and with nothing else.
 */
module Graphs {

  /** Consecutive elements are joined by an edge; the empty chain is allowed. */
  ghost predicate Chain<T>(e: (T, T) -> bool, p: seq<T>) {
    forall i :: 0 <= i < |p| - 1 ==> e(p[i], p[i + 1])
  }

  ghost predicate PathFromTo<T>(e: (T, T) -> bool, p: seq<T>, a: T, b: T) {
    |p| > 0 && p[0] == a && p[|p| - 1] == b && Chain(e, p)
  }

  /** `b` can be reached from `a` in zero or more steps. */
  ghost predicate Reaches<T(!new)>(e: (T, T) -> bool, a: T, b: T) {
    exists p :: PathFromTo(e, p, a, b)
  }

  /** `a` can be reached from itself in one or more steps. */
  ghost predicate OnCycle<T(!new)>(e: (T, T) -> bool, a: T) {
    exists b :: e(a, b) && Reaches(e, b, a)
  }

  ghost predicate Acyclic<T(!new)>(e: (T, T) -> bool) {
    forall a :: !OnCycle(e, a)
  }

  lemma ChainPush<T>(e: (T, T) -> bool, p: seq<T>, x: T)
    requires Chain(e, p) && (p != [] ==> e(p[|p| - 1], x))
    ensures Chain(e, p + [x])
  {
    var q := p + [x];
    forall i | 0 <= i < |q| - 1 ensures e(q[i], q[i + 1]) {
      assert q[i] == p[i] && q[i + 1] == if i + 1 < |p| then p[i + 1] else x;
    }
  }

  lemma ChainPop<T>(e: (T, T) -> bool, p: seq<T>, x: T)
    requires Chain(e, p + [x])
    ensures Chain(e, p)
  {
    var q := p + [x];
    forall i | 0 <= i < |p| - 1 ensures e(p[i], p[i + 1]) {
      assert q[i] == p[i] && q[i + 1] == p[i + 1];
    }
  }

  lemma ReachesSelf<T(!new)>(e: (T, T) -> bool, a: T)
    ensures Reaches(e, a, a)
  {
    assert PathFromTo(e, [a], a, a);
  }

  lemma ReachesStep<T(!new)>(e: (T, T) -> bool, a: T, b: T, c: T)
    requires Reaches(e, a, b) && e(b, c)
    ensures Reaches(e, a, c)
  {
    var p :| PathFromTo(e, p, a, b);
    assert PathFromTo(e, p + [c], a, c);
  }

  lemma StepReaches<T(!new)>(e: (T, T) -> bool, a: T, b: T, c: T)
    requires e(a, b) && Reaches(e, b, c)
    ensures Reaches(e, a, c)
  {
    var p :| PathFromTo(e, p, b, c);
    assert PathFromTo(e, [a] + p, a, c);
  }

  lemma ReachesTrans<T(!new)>(e: (T, T) -> bool, a: T, b: T, c: T)
    requires Reaches(e, a, b) && Reaches(e, b, c)
    ensures Reaches(e, a, c)
  {
    var p :| PathFromTo(e, p, a, b);
    var q :| PathFromTo(e, q, b, c);
    var r := p + q[1..];
    forall i | 0 <= i < |r| - 1 ensures e(r[i], r[i + 1]) {
      if i >= |p| - 1 {
        assert r[i] == q[i - |p| + 1] && r[i + 1] == q[i - |p| + 2];
      }
    }
    assert PathFromTo(e, r, a, c);
  }

  /** Either the two ends are equal or the first step can be split off. */
  lemma ReachesSplit<T(!new)>(e: (T, T) -> bool, a: T, c: T)
    requires Reaches(e, a, c) && a != c
    ensures exists b :: e(a, b) && Reaches(e, b, c)
  {
    var p :| PathFromTo(e, p, a, c);
    assert PathFromTo(e, p[1..], p[1], c);
    assert e(a, p[1]) && Reaches(e, p[1], c);
  }

  /** Either the two ends are equal or the last step can be split off. */
  lemma ReachesSplitLast<T(!new)>(e: (T, T) -> bool, a: T, c: T)
    requires Reaches(e, a, c) && a != c
    ensures exists b :: Reaches(e, a, b) && e(b, c)
  {
    var p :| PathFromTo(e, p, a, c);
    var b := p[|p| - 2];
    assert PathFromTo(e, p[..|p| - 1], a, b);
    assert e(b, p[|p| - 2 + 1]);
  }

  /** A chain whose last element has an edge back into the chain closes a cycle. */
  lemma ChainClosesCycle<T(!new)>(e: (T, T) -> bool, p: seq<T>, i: nat)
    requires Chain(e, p) && i < |p| && e(p[|p| - 1], p[i])
    ensures OnCycle(e, p[i]) && !Acyclic(e)
  {
    var last := p[|p| - 1];
    if i == |p| - 1 {
      ReachesSelf(e, p[i]);
      assert e(p[i], p[i]) && Reaches(e, p[i], p[i]);
    } else {
      assert PathFromTo(e, p[i + 1..], p[i + 1], last);
      ReachesStep(e, p[i + 1], last, p[i]);
      assert e(p[i], p[i + 1]) && Reaches(e, p[i + 1], p[i]);
    }
    assert OnCycle(e, p[i]);
  }

  /** Every element of `order` has all its successors strictly before it. */
  ghost predicate Ordered<T(!new)>(e: (T, T) -> bool, order: seq<T>) {
    forall i, b :: 0 <= i < |order| && e(order[i], b) ==> b in order[..i]
  }

  lemma {:induction false} OrderedReach<T(!new)>(e: (T, T) -> bool, order: seq<T>, i: nat, p: seq<T>)
    requires Ordered(e, order) && i < |order|
    requires |p| > 0 && p[0] == order[i] && Chain(e, p)
    ensures p[|p| - 1] in order[..i + 1]
    ensures |p| > 1 ==> p[|p| - 1] in order[..i]
    decreases |p|
  {
    if |p| > 1 {
      assert e(p[0], p[1]);
      assert p[1] in order[..i];
      var j :| 0 <= j < i && order[j] == p[1];
      var q := p[1..];
      forall k | 0 <= k < |q| - 1 ensures e(q[k], q[k + 1]) {
        assert q[k] == p[k + 1] && q[k + 1] == p[k + 1 + 1];
      }
      OrderedReach(e, order, j, q);
      assert p[|p| - 1] == q[|q| - 1];
      assert order[..j + 1] <= order[..i];
    }
  }

  /** A duplicate-free ordered sequence contains no element of a cycle. */
  lemma OrderedAcyclic<T(!new)>(e: (T, T) -> bool, order: seq<T>, a: T)
    requires Ordered(e, order) && a in order
    ensures !OnCycle(e, a)
  {
    // The first occurrence of a is the one to look at.
    var n :| 0 <= n < |order| && order[n] == a;
    OrderedFirst(e, order, a, n);
  }

  lemma {:induction false} OrderedFirst<T(!new)>(e: (T, T) -> bool, order: seq<T>, a: T, n: nat)
    requires Ordered(e, order) && n < |order| && order[n] == a
    ensures !OnCycle(e, a)
    decreases n
  {
    if OnCycle(e, a) {
      var b :| e(a, b) && Reaches(e, b, a);
      var p :| PathFromTo(e, p, b, a);
      var c := [a] + p;
      assert forall k :: 0 <= k < |c| - 1 ==> e(c[k], c[k + 1]);
      OrderedReach(e, order, n, c);
      var m :| 0 <= m < n && order[m] == a;
      OrderedFirst(e, order, a, m);
    }
  }

  /** A set that is closed under edges contains all that its elements reach. */
  lemma {:induction false} ClosedReach<T(!new)>(e: (T, T) -> bool, s: iset<T>, p: seq<T>)
    requires forall a, b :: a in s && e(a, b) ==> b in s
    requires |p| > 0 && p[0] in s && Chain(e, p)
    ensures p[|p| - 1] in s
    decreases |p|
  {
    if |p| > 1 {
      assert e(p[0], p[1]);
      var q := p[1..];
      forall k | 0 <= k < |q| - 1 ensures e(q[k], q[k + 1]) {
        assert q[k] == p[k + 1] && q[k + 1] == p[k + 1 + 1];
      }
      ClosedReach(e, s, q);
    }
  }
}
