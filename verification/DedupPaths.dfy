/**
 Sets of paths that an entitlement is asked for: paths below another one are
 dropped, and the rest is held against the paths that are allowed.
 */
module DedupPaths {
  import opened Common
  import opened Texts
  import opened Paths

  predicate HasPrefix(s: string, prefix: string) {
    |prefix| <= |s| && s[..|prefix|] == prefix
  }

  /** `p` lies below `q`, as told by the strings. */
  predicate Below(p: string, q: string) {
    HasPrefix(p, q + [SEP])
  }

  lemma BelowTransitive(p: string, q: string, r: string)
    requires Below(p, q) && Below(q, r)
    ensures Below(p, r)
  {
    var n := |r| + 1;
    assert p[..n] == p[..|q| + 1][..n] == (q + [SEP])[..n] == q[..n];
  }

  function CleanAll(ps: set<string>): set<string> {
    set p | p in ps :: Clean(p)
  }

  /** The paths that no other path of the set is above. */
  ghost function Tops(ps: set<string>): set<string> {
    set p | p in ps && IsTop(ps, p)
  }

  ghost predicate IsTop(ps: set<string>, p: string) {
    forall q :: q in ps ==> !Below(p, q)
  }

  /** Above every path that is not a top there is one. */
  lemma {:induction false} TopAbove(ps: set<string>, p: string) returns (q: string)
    requires p in ps
    ensures q in Tops(ps) && (q == p || Below(p, q))
    decreases |p|
  {
    q := p;
    if !IsTop(ps, p) {
      var r :| r in ps && Below(p, r);
      q := TopAbove(ps, r);
      if q != r {
        BelowTransitive(p, r, q);
      }
    }
  }

  ghost predicate ByLength(arr: seq<string>) {
    forall i, j :: 0 <= i < j < |arr| ==> |arr[i]| <= |arr[j]|
  }

  /** One of the shortest paths. */
  lemma {:induction false} Shortest(ps: set<string>) returns (p: string)
    requires ps != {}
    ensures p in ps && forall q :: q in ps ==> |p| <= |q|
  {
    p :| p in ps;
    if exists q :: q in ps && |q| < |p| {
      var rest := ps - {p};
      var q :| q in ps && |q| < |p|;
      assert q in rest;
      p := Shortest(rest);
    }
  }

  /** The paths taken so far are no longer than the others. */
  ghost predicate TakenByLength(arr: seq<string>, ps: set<string>, todo: set<string>) {
    todo <= ps && ByLength(arr) && Elems(arr) == ps - todo && forall i, q :: 0 <= i < |arr| && q in todo ==> |arr[i]| <= |q|
  }

  lemma OneMoreTaken(arr: seq<string>, ps: set<string>, todo: set<string>, p: string)
    requires TakenByLength(arr, ps, todo) && p in todo && forall q :: q in todo ==> |p| <= |q|
    ensures TakenByLength(arr + [p], ps, todo - {p}) && |todo - {p}| < |todo|
  {
    ElemsAppend(arr, p);
    OneMoreDone(ps, todo, p);
  }

  /** The paths in any order in which they get longer. */
  method SortByLength(ps: set<string>) returns (arr: seq<string>)
    ensures Elems(arr) == ps && ByLength(arr)
  {
    arr := [];
    var todo := ps;
    while todo != {}
      invariant TakenByLength(arr, ps, todo)
    {
      ghost var s := Shortest(todo);
      var p :| p in todo && forall q :: q in todo ==> |p| <= |q|;
      OneMoreTaken(arr, ps, todo, p);
      arr := arr + [p];
      todo := todo - {p};
    }
    AllDone(ps);
  }

  /** While the paths come by length, only the kept ones need to be looked at. */
  lemma KeptSuffice(arr: seq<string>, i: nat, m: set<string>)
    requires i < |arr| && ByLength(arr) && (forall p :: p in m <==> p in arr[..i] && p in Tops(Elems(arr)))
    ensures (exists q :: q in m && Below(arr[i], q)) <==> arr[i] !in Tops(Elems(arr))
  {
    var ps, p := Elems(arr), arr[i];
    if p !in Tops(ps) {
      var q := TopAbove(ps, p);
      var k :| 0 <= k < |arr| && arr[k] == q;
      assert k < i;
      assert arr[..i][k] == q;
      assert q in m && Below(p, q);
    }
  }

  method DedupPaths(input: set<string>) returns (m: set<string>)
    ensures m == Tops(CleanAll(input))
  {
    var arr := SortByLength(CleanAll(input));
    ghost var tops := Tops(Elems(arr));
    m := {};
    for i := 0 to |arr|
      invariant forall p :: p in m <==> p in arr[..i] && p in tops
    {
      KeptSuffice(arr, i, m);
      var below := AnyAbove(m, arr[i]);
      assert arr[..i + 1] == arr[..i] + [arr[i]];
      if !below {
        m := m + {arr[i]};
      }
    }
    assert arr[..|arr|] == arr;
  }

  /** Looks for a kept path above `p`, in any order. */
  method AnyAbove(m: set<string>, p: string) returns (b: bool)
    ensures b <==> exists q :: q in m && Below(p, q)
  {
    var todo := m;
    while todo != {}
      invariant todo <= m && forall q :: q in m && q !in todo ==> !Below(p, q)
    {
      var q :| q in todo;
      if Below(p, q) {
        return true;
      }
      todo := todo - {q};
    }
    return false;
  }

  predicate IsParentOrEqualPath(p: string, parent: string) {
    p == parent || parent == [SEP] || HasPrefix(p, Clean(parent + [SEP]))
  }

  /** The parent's last component goes on in the path. */
  predicate RunsOn(p: string, parent: string) {
    parent != [SEP] && |parent| < |p| && HasPrefix(p, parent) && p[|parent|] != SEP
  }

  /** For clean paths the test finds the paths at and below the parent, and those that run on from its name. */
  lemma ParentTest(p: string, parent: string)
    requires IsClean(p) && IsClean(parent)
    ensures IsParentOrEqualPath(p, parent) <==> Ancestor(parent, p) || RunsOn(p, parent)
    ensures (IsParentOrEqualPath(p, parent) <==> Ancestor(parent, p)) <==> !RunsOn(p, parent)
  {
    CleanTrailing(parent);
    if parent == [SEP] {
      CompsRender([]);
    } else {
      AncestorByPrefix(parent, p);
      assert HasPrefix(p, parent) && |parent| < |p| ==> p[..|parent| + 1] == parent + [p[|parent|]];
      assert Ancestor(parent, p) && |parent| < |p| ==> p[..|parent|] == (parent + [SEP])[..|parent|] == parent;
      assert RunsOn(p, parent) ==> p[..|parent| + 1][|parent|] == p[|parent|];
    }
  }

  ghost predicate Covered(allowed: seq<string>, p: string) {
    exists c :: c in allowed && IsParentOrEqualPath(p, c)
  }

  /** The paths that nothing allowed covers; paths below other paths are dropped first. */
  method FindMissingPaths(allowed: seq<string>, paths: set<string>) returns (out: set<string>)
    ensures out == set p | p in Tops(CleanAll(paths)) && !Covered(allowed, p)
  {
    var tops := DedupPaths(paths);
    var todo := tops;
    out := {};
    while todo != {}
      invariant todo <= tops
      invariant forall p :: p in out <==> p in tops && p !in todo && !Covered(allowed, p)
    {
      var p :| p in todo;
      var covered := IsCovered(allowed, p);
      todo := todo - {p};
      if !covered {
        out := out + {p};
      }
    }
  }

  method IsCovered(allowed: seq<string>, p: string) returns (b: bool)
    ensures b <==> Covered(allowed, p)
  {
    for i := 0 to |allowed|
      invariant forall k :: 0 <= k < i ==> !IsParentOrEqualPath(p, allowed[k])
    {
      if IsParentOrEqualPath(p, allowed[i]) {
        return true;
      }
    }
    return false;
  }

  /** What covers a path covers everything below it. */
  lemma CoveredBelow(allowed: seq<string>, p: string, q: string)
    requires IsClean(q) && Below(p, q) && Covered(allowed, q)
    ensures Covered(allowed, p)
  {
    var c :| c in allowed && IsParentOrEqualPath(q, c);
    var pre := Clean(c + [SEP]);
    CleanTrailing(c);
    assert q == p[..|q| + 1][..|q|] == p[..|q|];
    if HasPrefix(q, pre) {
      assert p[..|pre|] == q[..|pre|];
    }
    assert IsParentOrEqualPath(p, c);
  }

  /** Dropping paths below others never changes whether anything is missing. */
  lemma DedupDoesNotMatter(allowed: seq<string>, paths: set<string>)
    ensures (forall p :: p in Tops(CleanAll(paths)) ==> Covered(allowed, p)) <==>
            (forall p :: p in paths ==> Covered(allowed, Clean(p)))
  {
    var ps := CleanAll(paths);
    if forall p :: p in Tops(ps) ==> Covered(allowed, p) {
      forall p | p in paths ensures Covered(allowed, Clean(p)) {
        var q := TopAbove(ps, Clean(p));
        if q != Clean(p) {
          var o :| o in paths && Clean(o) == q;
          CleanIdempotent(o);
          CoveredBelow(allowed, Clean(p), q);
        }
      }
    }
  }

  /** In terms of components: exactly the clean paths without another path of the set, other than the root, above them. */
  lemma TopsByComponents(paths: set<string>, p: string)
    requires p in CleanAll(paths)
    ensures p in Tops(CleanAll(paths)) <==> forall q :: q in CleanAll(paths) && q != p && q != [SEP] ==> !Ancestor(q, p)
  {
    var ps := CleanAll(paths);
    forall q | q in ps ensures Below(p, q) <==> q != p && q != [SEP] && Ancestor(q, p) {
      var o :| o in paths && Clean(o) == q;
      CleanIdempotent(o);
      var o' :| o' in paths && Clean(o') == p;
      CleanIdempotent(o');
      if q == [SEP] {
        NotBelowRoot(p);
      } else {
        AncestorByPrefix(q, p);
      }
    }
  }

  /** By the strings nothing lies below the root: no clean path begins with two separators. */
  lemma NotBelowRoot(p: string)
    requires IsClean(p)
    ensures !Below(p, [SEP])
  {
    CleanIsRendered(p);
    CompsProper(p);
    var cs := Comps(p);
    if cs != [] {
      RenderAtFront(cs);
    }
  }

  lemma {:induction false} RenderAtFront(cs: seq<string>)
    requires cs != [] && AllProper(cs)
    ensures |Render(cs)| > 1 && Render(cs)[1] == cs[0][0]
  {
    if |cs| > 1 {
      RenderAtFront(cs[..|cs| - 1]);
    }
  }

  /** A path whose name only begins like the parent's passes the test. */
  lemma RunsOnPasses()
    ensures exists p: string, parent: string ::
              IsClean(p) && IsClean(parent) && IsParentOrEqualPath(p, parent) && !Ancestor(parent, p)
  {
    var p, parent := [SEP] + "ab", [SEP] + "a";
    OneName("ab");
    OneName("a");
    assert p[..2] == parent && p[2] != SEP;
    assert RunsOn(p, parent);
    ParentTest(p, parent);
    assert "ab" != "a";
  }

  lemma OneName(c: string)
    requires Proper(c) && c != "." && c != ".."
    ensures IsClean([SEP] + c) && Comps([SEP] + c) == [c]
  {
    assert Render([c]) == [SEP] + c;
    CompsRender([c]);
    NormOfNormal([c]);
  }
}
