/**
 Targets that use other targets as build contexts. Loading the links of a target
 pulls in the targets it names, checks their platforms, detects loops along the
 path walked, and hands entitlements from linked targets to those that use them.
 */
module Links {
  import opened Common
  import opened Graphs

  datatype Target = Target(contexts: map<string, string>, platforms: seq<string>, entitlements: seq<string>,
                           outputs: seq<string>, linked: bool)

  /** What ResolveTarget returns for each name; a name outside the map is an error. */
  type Resolved = map<string, Target>

  const PREFIX := "target:"

  function LinkOf(context: string): Option<string> {
    if PREFIX <= context then Some(context[|PREFIX|..]) else None
  }

  /** A context names the target behind "target:", and nothing else does. */
  lemma LinkMeans(context: string, n: string)
    ensures LinkOf(context) == Some(n) <==> context == "target:" + n
  {
    if LinkOf(context) == Some(n) {
      assert context == PREFIX + context[|PREFIX|..];
    }
    assert (PREFIX + n)[|PREFIX|..] == n;
  }

  /** The targets that `n` names in its contexts. */
  function LinksOf(r: Resolved, n: string): set<string> {
    if n in r then
      set k | k in r[n].contexts && LinkOf(r[n].contexts[k]).Some? :: LinkOf(r[n].contexts[k]).value
    else {}
  }

  ghost function Edge(r: Resolved): (string, string) -> bool {
    (a, b) => b in LinksOf(r, a)
  }

  /** A target for several platforms needs all of them from another one for several platforms. */
  predicate PlatformsFit(user: Target, used: Target) {
    |user.platforms| > 1 && |used.platforms| > 1 ==> forall p :: p in user.platforms ==> p in used.platforms
  }

  /** Platforms are compared only between targets for several platforms; then one that is missing spoils the link. */
  lemma PlatformsMeans(user: Target, used: Target)
    ensures |user.platforms| <= 1 || |used.platforms| <= 1 ==> PlatformsFit(user, used)
    ensures |user.platforms| > 1 && |used.platforms| > 1 ==> (PlatformsFit(user, used) <==> Elems(user.platforms) <= Elems(used.platforms))
  {
    if PlatformsFit(user, used) && |user.platforms| > 1 && |used.platforms| > 1 {
      forall p | p in Elems(user.platforms) ensures p in Elems(used.platforms) {
        assert p in used.platforms;
      }
    }
    if Elems(user.platforms) <= Elems(used.platforms) {
      forall p | p in user.platforms ensures p in used.platforms {
        assert p in Elems(used.platforms);
      }
    }
  }

  ghost predicate LinkFits(r: Resolved, a: string, b: string) {
    a in r && b in r && PlatformsFit(r[a], r[b])
  }

  ghost predicate NodeOk(r: Resolved, n: string) {
    !OnCycle(Edge(r), n) && forall b :: Edge(r)(n, b) ==> LinkFits(r, n, b)
  }

  /** Nothing reachable from `n` is on a loop, unresolvable or unfit. */
  ghost predicate LinksOk(r: Resolved, n: string) {
    forall x :: Reaches(Edge(r), n, x) ==> NodeOk(r, x)
  }

  lemma LinksOkDown(r: Resolved, a: string, b: string)
    requires LinksOk(r, a) && Reaches(Edge(r), a, b)
    ensures LinksOk(r, b) && NodeOk(r, b)
  {
    forall x | Reaches(Edge(r), b, x) ensures NodeOk(r, x) {
      ReachesTrans(Edge(r), a, b, x);
    }
  }

  /** A target is fine when its links fit and are fine themselves. */
  lemma LinksOkUp(r: Resolved, n: string)
    requires forall b :: Edge(r)(n, b) ==> LinkFits(r, n, b) && LinksOk(r, b)
    ensures LinksOk(r, n)
  {
    assert !OnCycle(Edge(r), n);
    forall x | Reaches(Edge(r), n, x) ensures NodeOk(r, x) {
      if x != n {
        ReachesSplit(Edge(r), n, x);
        var b :| Edge(r)(n, b) && Reaches(Edge(r), b, x);
        assert LinksOk(r, b);
      }
    }
  }

  /** A link back onto the path that led here is a loop. */
  lemma BackLink(r: Resolved, path: seq<string>, b: string)
    requires path != [] && Chain(Edge(r), path) && b in path && Edge(r)(path[|path| - 1], b)
    ensures !LinksOk(r, b)
  {
    var i :| 0 <= i < |path| && path[i] == b;
    ChainClosesCycle(Edge(r), path, i);
    ReachesSelf(Edge(r), b);
    assert !NodeOk(r, b);
  }

  lemma BadLink(r: Resolved, n: string, b: string)
    requires Edge(r)(n, b) && (!LinkFits(r, n, b) || !LinksOk(r, b))
    ensures !LinksOk(r, n)
  {
    ReachesSelf(Edge(r), n);
    if LinksOk(r, n) {
      assert NodeOk(r, n);
      ReachesStep(Edge(r), n, n, b);
      LinksOkDown(r, n, b);
      assert false;
    }
  }

  /** `e` is an entitlement of `n` or of a target that `n` reaches. */
  ghost predicate Inherited(r: Resolved, n: string, e: string) {
    exists x :: Reaches(Edge(r), n, x) && x in r && e in r[x].entitlements
  }

  lemma InheritedUp(r: Resolved, a: string, b: string, e: string)
    requires Edge(r)(a, b) && Inherited(r, b, e)
    ensures Inherited(r, a, e)
  {
    var x :| Reaches(Edge(r), b, x) && x in r && e in r[x].entitlements;
    StepReaches(Edge(r), a, b, x);
  }

  lemma InheritedSplit(r: Resolved, a: string, e: string)
    requires Inherited(r, a, e)
    ensures (a in r && e in r[a].entitlements) || exists b :: Edge(r)(a, b) && Inherited(r, b, e)
  {
    var x :| Reaches(Edge(r), a, x) && x in r && e in r[x].entitlements;
    if x != a {
      ReachesSplit(Edge(r), a, x);
      var b :| Edge(r)(a, b) && Reaches(Edge(r), b, x);
      assert Inherited(r, b, e);
    }
  }

  /** Entry `n` is the resolved target, except that it may have inherited entitlements and been marked. */
  ghost predicate EntryOk(r: Resolved, m: map<string, Target>, n: string) {
    && n in m && n in r
    && m[n].contexts == r[n].contexts && m[n].platforms == r[n].platforms
    && r[n].entitlements <= m[n].entitlements
    && (forall e :: e in m[n].entitlements ==> Inherited(r, n, e))
    && (Distinct(r[n].entitlements) ==> Distinct(m[n].entitlements))
  }

  ghost predicate Consistent(r: Resolved, m: map<string, Target>) {
    forall n :: n in m ==> EntryOk(r, m, n)
  }

  /** Entry `n` has all the entitlements it inherits. */
  ghost predicate Complete(r: Resolved, m: map<string, Target>, n: string) {
    n in m && forall e :: Inherited(r, n, e) ==> e in m[n].entitlements
  }

  /** Everything `n` reaches is loaded and complete. */
  ghost predicate Settled(r: Resolved, m: map<string, Target>, n: string) {
    forall x :: Reaches(Edge(r), n, x) ==> Complete(r, m, x)
  }

  const CACHE_ONLY := ["cacheonly"]

  /** Entry `n` of `m` after some loading that led to `m'`: flags as before, entitlements extended. */
  ghost predicate EntryGrown(m: map<string, Target>, m': map<string, Target>, n: string) {
    && n in m && n in m'
    && m[n].entitlements <= m'[n].entitlements
    && m'[n].linked == m[n].linked && m'[n].outputs == m[n].outputs
  }

  /** A target that was pulled in by a link. */
  ghost predicate PulledIn(r: Resolved, m': map<string, Target>, root: iset<string>, n: string) {
    && n in m' && m'[n].linked && m'[n].outputs == CACHE_ONLY
    && exists a :: a in root && Reaches(Edge(r), a, n)
  }

  ghost predicate Grown(r: Resolved, m: map<string, Target>, m': map<string, Target>, root: iset<string>) {
    && (forall n :: n in m ==> EntryGrown(m, m', n))
    && (forall n :: n in m' && n !in m ==> PulledIn(r, m', root, n))
  }

  lemma GrownTrans(r: Resolved, m1: map<string, Target>, m2: map<string, Target>, m3: map<string, Target>, root: iset<string>, root2: iset<string>)
    requires Grown(r, m1, m2, root) && Grown(r, m2, m3, root2)
    requires forall b :: b in root2 ==> exists a :: a in root && Reaches(Edge(r), a, b)
    ensures Grown(r, m1, m3, root)
  {
    forall n | n in m1 ensures EntryGrown(m1, m3, n) {
      assert EntryGrown(m1, m2, n) && EntryGrown(m2, m3, n);
    }
    forall n | n in m3 && n !in m1 ensures PulledIn(r, m3, root, n) {
      if n in m2 {
        assert PulledIn(r, m2, root, n) && EntryGrown(m2, m3, n);
      } else {
        assert PulledIn(r, m3, root2, n);
        var b :| b in root2 && Reaches(Edge(r), b, n);
        var a :| a in root && Reaches(Edge(r), a, b);
        ReachesTrans(Edge(r), a, b, n);
      }
    }
  }

  lemma GrownStep(r: Resolved, m1: map<string, Target>, m2: map<string, Target>, m3: map<string, Target>, root: iset<string>, b: string)
    requires Grown(r, m1, m2, root) && Grown(r, m2, m3, iset{b})
    requires exists a :: a in root && Reaches(Edge(r), a, b)
    ensures Grown(r, m1, m3, root)
  {
    GrownTrans(r, m1, m2, m3, root, iset{b});
  }

  lemma SettledGrows(r: Resolved, m: map<string, Target>, m': map<string, Target>, root: iset<string>, n: string)
    requires Settled(r, m, n) && Grown(r, m, m', root)
    ensures Settled(r, m', n)
  {
    forall x | Reaches(Edge(r), n, x) ensures Complete(r, m', x) {
      assert Complete(r, m, x) && EntryGrown(m, m', x);
    }
  }

  /** `a` followed by the elements of `b` that are not there yet. */
  function AddMissing(a: seq<string>, b: seq<string>): seq<string> {
    if b == [] then a
    else
      var p := AddMissing(a, b[..|b| - 1]);
      if b[|b| - 1] in p then p else p + [b[|b| - 1]]
  }

  lemma {:induction false} AddMissingFacts(a: seq<string>, b: seq<string>)
    ensures a <= AddMissing(a, b)
    ensures forall x :: x in AddMissing(a, b) <==> x in a || x in b
    ensures Distinct(a) ==> Distinct(AddMissing(a, b))
    ensures (forall x :: x in b ==> x in a) ==> AddMissing(a, b) == a
  {
    if b != [] {
      AddMissingFacts(a, b[..|b| - 1]);
      assert b == b[..|b| - 1] + [b[|b| - 1]];
    }
  }

  method MergeEntitlements(a: seq<string>, b: seq<string>) returns (res: seq<string>)
    ensures res == AddMissing(a, b)
  {
    res := a;
    for i := 0 to |b|
      invariant res == AddMissing(a, b[..i])
    {
      assert b[..i + 1][..i] == b[..i];
      if b[i] !in res {
        res := res + [b[i]];
      }
    }
    assert b[..|b|] == b;
  }

  method IsSubset(s1: seq<string>, s2: seq<string>) returns (ok: bool)
    ensures ok <==> forall p :: p in s1 ==> p in s2
  {
    for i := 0 to |s1|
      invariant forall j :: 0 <= j < i ==> s1[j] in s2
    {
      if s1[i] !in s2 {
        return false;
      }
    }
    return true;
  }

  /** Link `b` of `n` has been loaded and its entitlements handed on. */
  ghost predicate LinkDone(r: Resolved, m: map<string, Target>, n: string, b: string) {
    && LinkFits(r, n, b) && LinksOk(r, b) && Settled(r, m, b)
    && n in m && forall e :: Inherited(r, b, e) ==> e in m[n].entitlements
  }

  lemma LinkDoneGrows(r: Resolved, m: map<string, Target>, m': map<string, Target>, root: iset<string>, n: string, b: string)
    requires LinkDone(r, m, n, b) && Grown(r, m, m', root)
    ensures LinkDone(r, m', n, b)
  {
    SettledGrows(r, m, m', root, b);
    assert EntryGrown(m, m', n);
  }

  /** With all links done, the target itself is settled. */
  lemma AllLinksDone(r: Resolved, m: map<string, Target>, n: string)
    requires EntryOk(r, m, n)
    requires forall b :: Edge(r)(n, b) ==> LinkDone(r, m, n, b)
    ensures LinksOk(r, n) && Settled(r, m, n)
  {
    forall b | Edge(r)(n, b) ensures LinkFits(r, n, b) && LinksOk(r, b) {
      assert LinkDone(r, m, n, b);
    }
    LinksOkUp(r, n);
    forall e | Inherited(r, n, e) ensures e in m[n].entitlements {
      InheritedSplit(r, n, e);
      if !(n in r && e in r[n].entitlements) {
        var b :| Edge(r)(n, b) && Inherited(r, b, e);
        assert LinkDone(r, m, n, b);
      }
    }
    forall x | Reaches(Edge(r), n, x) ensures Complete(r, m, x) {
      if x != n {
        ReachesSplit(Edge(r), n, x);
        var b :| Edge(r)(n, b) && Reaches(Edge(r), b, x);
        assert LinkDone(r, m, n, b);
      }
    }
  }

  /** A target pulled in fresh by a link of `n`. */
  lemma PullIn(r: Resolved, m: map<string, Target>, n: string, b: string)
    requires Consistent(r, m) && n in m && Edge(r)(n, b) && b in r && b !in m
    ensures var m' := m[b := r[b].(outputs := CACHE_ONLY, linked := true)];
            Consistent(r, m') && Grown(r, m, m', iset{n})
  {
    var m' := m[b := r[b].(outputs := CACHE_ONLY, linked := true)];
    ReachesSelf(Edge(r), b);
    ReachesSelf(Edge(r), n);
    ReachesStep(Edge(r), n, n, b);
    forall e | e in r[b].entitlements ensures Inherited(r, b, e) {
      assert Reaches(Edge(r), b, b);
    }
    forall x | x in m' ensures EntryOk(r, m', x) {
      if x != b { assert EntryOk(r, m, x); }
    }
    assert PulledIn(r, m', iset{n}, b);
  }

  /** Handing the entitlements of link `b` to `n`. */
  lemma HandOn(r: Resolved, m: map<string, Target>, n: string, b: string)
    requires Consistent(r, m) && n in m && b in m && n != b && Edge(r)(n, b)
    requires LinksOk(r, b) && Settled(r, m, b)
    ensures var ents := AddMissing(m[n].entitlements, m[b].entitlements);
            var m' := m[n := m[n].(entitlements := ents)];
            && Consistent(r, m') && Grown(r, m, m', iset{n})
            && (LinkFits(r, n, b) ==> LinkDone(r, m', n, b))
            && (Settled(r, m, n) ==> m' == m)
  {
    var ents := AddMissing(m[n].entitlements, m[b].entitlements);
    var m' := m[n := m[n].(entitlements := ents)];
    AddMissingFacts(m[n].entitlements, m[b].entitlements);
    HandOnConsistent(r, m, n, b, ents);
    assert forall x :: x in m ==> EntryGrown(m, m', x);
    SettledGrows(r, m, m', iset{n}, b);
    ReachesSelf(Edge(r), b);
    assert Complete(r, m, b);
    if Settled(r, m, n) {
      NothingNew(r, m, n, b);
    }
  }

  lemma HandOnConsistent(r: Resolved, m: map<string, Target>, n: string, b: string, ents: seq<string>)
    requires Consistent(r, m) && n in m && b in m && Edge(r)(n, b)
    requires ents == AddMissing(m[n].entitlements, m[b].entitlements)
    ensures Consistent(r, m[n := m[n].(entitlements := ents)])
  {
    var m' := m[n := m[n].(entitlements := ents)];
    AddMissingFacts(m[n].entitlements, m[b].entitlements);
    assert EntryOk(r, m, n) && EntryOk(r, m, b);
    forall e | e in ents ensures Inherited(r, n, e) {
      if e in m[b].entitlements { InheritedUp(r, n, b, e); }
    }
    forall x | x in m' ensures EntryOk(r, m', x) {
      assert EntryOk(r, m, x);
    }
  }

  lemma NothingNew(r: Resolved, m: map<string, Target>, n: string, b: string)
    requires Consistent(r, m) && n in m && b in m && Edge(r)(n, b) && Settled(r, m, n)
    ensures AddMissing(m[n].entitlements, m[b].entitlements) == m[n].entitlements
  {
    ReachesSelf(Edge(r), n);
    assert Complete(r, m, n) && EntryOk(r, m, b);
    forall e | e in m[b].entitlements ensures e in m[n].entitlements {
      InheritedUp(r, n, b, e);
    }
    AddMissingFacts(m[n].entitlements, m[b].entitlements);
  }

  class Linker {
    const r: Resolved
    var m: map<string, Target>

    constructor (r: Resolved, m: map<string, Target>)
      ensures this.r == r && this.m == m
    {
      this.r, this.m := r, m;
    }

    /** Makes sure that link `b` of `n` is loaded. */
    method Pull(n: string, b: string) returns (ok: bool)
      requires Consistent(r, m) && n in m && Edge(r)(n, b)
      modifies this
      ensures Consistent(r, m) && Grown(r, old(m), m, iset{n})
      ensures ok <==> b in m
      ensures b in r ==> ok
      ensures b in old(m) || !ok ==> m == old(m)
    {
      if b in m {
        assert EntryOk(r, m, b);
        return true;
      }
      if b !in r {
        return false;
      }
      PullIn(r, m, n, b);
      m := m[b := r[b].(outputs := CACHE_ONLY, linked := true)];
      return true;
    }

    /** Hands the entitlements of `b` to `n` and compares their platforms. */
    method Use(n: string, b: string) returns (ok: bool)
      requires Consistent(r, m) && n in m && b in m && n != b && Edge(r)(n, b)
      requires LinksOk(r, b) && Settled(r, m, b)
      modifies this
      ensures Consistent(r, m) && Grown(r, old(m), m, iset{n})
      ensures ok <==> LinkFits(r, n, b)
      ensures ok ==> LinkDone(r, m, n, b)
      ensures old(Settled(r, m, n)) ==> m == old(m)
    {
      HandOn(r, m, n, b);
      assert EntryOk(r, m, n) && EntryOk(r, m, b);
      var ents := MergeEntitlements(m[n].entitlements, m[b].entitlements);
      m := m[n := m[n].(entitlements := ents)];
      if |m[n].platforms| > 1 && |m[b].platforms| > 1 {
        ok := IsSubset(m[n].platforms, m[b].platforms);
        return;
      }
      return true;
    }

    /** Loads one link of `n`, the last target of the path walked so far. */
    method LoadLink(path: seq<string>, n: string, b: string) returns (ok: bool)
      requires Chain(Edge(r), path + [n]) && n !in path && Edge(r)(n, b)
      requires Consistent(r, m) && n in m
      modifies this
      ensures Consistent(r, m) && Grown(r, old(m), m, iset{n})
      ensures ok <==> LinkFits(r, n, b) && LinksOk(r, b)
      ensures ok ==> LinkDone(r, m, n, b)
      ensures ok && old(Settled(r, m, n)) ==> m == old(m)
      decreases r.Keys - Elems(path), 1, 0
    {
      assert EntryOk(r, m, n);
      assert (path + [n])[|path|] == n;
      if b == n || b in path {
        BackLink(r, path + [n], b);
        return false;
      }
      ok := Pull(n, b);
      if !ok {
        return;
      }
      ghost var m1 := m;
      ghost var was := old(Settled(r, m, n));
      ReachesSelf(Edge(r), n);
      ReachesStep(Edge(r), n, n, b);
      if was { PulledNothing(r, old(m), n, b); }
      Extend(r, path, n, b);
      assert Elems(path + [n]) == Elems(path) + {n};
      ok := LoadLinks(path + [n], b);
      ghost var m2 := m;
      GrownStep(r, old(m), m1, m2, iset{n}, b);
      assert EntryGrown(m1, m2, n) && EntryGrown(m1, m2, b);
      if !ok {
        return;
      }
      ok := Use(n, b);
      GrownStep(r, old(m), m2, m, iset{n}, n);
    }

    /** Loads all links of `n`; `path` holds the targets that led to it. */
    method LoadLinks(path: seq<string>, n: string) returns (ok: bool)
      requires Chain(Edge(r), path + [n]) && n !in path
      requires Consistent(r, m) && n in m
      modifies this
      ensures Consistent(r, m) && Grown(r, old(m), m, iset{n})
      ensures ok <==> LinksOk(r, n)
      ensures ok ==> Settled(r, m, n)
      ensures ok && old(Settled(r, m, n)) ==> m == old(m)
      decreases r.Keys - Elems(path), 2
    {
      assert EntryOk(r, m, n);
      ghost var was := Settled(r, m, n);
      var contexts := m[n].contexts;
      ReachesSelf(Edge(r), n);
      GrownSelf(r, m, iset{n});
      var todo := contexts.Keys;
      while todo != {}
        invariant todo <= contexts.Keys && Consistent(r, m) && n in m
        invariant Grown(r, old(m), m, iset{n})
        invariant ContextsDone(r, m, n, contexts, contexts.Keys - todo)
        invariant was ==> m == old(m)
        decreases |todo|
      {
        var k :| k in todo;
        ghost var m1 := m;
        ok := LoadContext(path, n, contexts[k]);
        GrownStep(r, old(m), m1, m, iset{n}, n);
        if !ok {
          return;
        }
        ContextsStep(r, m1, m, n, contexts, contexts.Keys - todo, k);
        OneMoreDone(contexts.Keys, todo, k);
        todo := todo - {k};
      }
      AllDone(contexts.Keys);
      AllContextsDone(r, m, n, contexts);
      return true;
    }

    method LoadContext(path: seq<string>, n: string, context: string) returns (ok: bool)
      requires Chain(Edge(r), path + [n]) && n !in path
      requires Consistent(r, m) && n in m && n in r && context in r[n].contexts.Values
      modifies this
      ensures Consistent(r, m) && Grown(r, old(m), m, iset{n}) && n in m
      ensures !ok ==> !LinksOk(r, n)
      ensures ok ==> ContextDone(r, m, n, context)
      ensures ok && old(Settled(r, m, n)) ==> m == old(m)
      decreases r.Keys - Elems(path), 1, 1
    {
      GrownSelf(r, m, iset{n});
      if !(PREFIX <= context) {
        return true;
      }
      var b := context[|PREFIX|..];
      ok := LoadLink(path, n, b);
      assert EntryGrown(old(m), m, n);
      if !ok {
        BadLink(r, n, b);
      }
    }

    /**
     Links all targets, in any order. Targets that are pulled in meanwhile may be
     visited as well, or not.
     */
    method LinkAll() returns (ok: bool)
      requires Consistent(r, m)
      modifies this
      ensures Consistent(r, m)
      ensures ok <==> forall n :: n in old(m) ==> LinksOk(r, n)
      ensures ok ==> Linked(r, old(m), m)
      ensures ok && old(AllSettled(r, m)) ==> m == old(m)
    {
      var initial := m.Keys;
      ghost var root := iset n | n in initial;
      ghost var was := AllSettled(r, m);
      GrownSelf(r, m, root);
      var processed := {};
      while true
        invariant Consistent(r, m) && Grown(r, old(m), m, root)
        invariant initial <= m.Keys && processed <= m.Keys
        invariant AllLinked(r, m, processed)
        invariant was ==> m == old(m)
        decreases r.Keys - processed
      {
        if m.Keys <= processed {
          break;
        }
        if initial <= processed {
          if * {
            break;
          }
        }
        var n :| n in m && n !in processed;
        assert EntryOk(r, m, n);
        assert was ==> Settled(r, m, n);
        ghost var m1 := m;
        RootOf(r, old(m), m, root, n);
        ok := LoadLinks([], n);
        GrownStep(r, old(m), m1, m, root, n);
        if !ok {
          BadRoot(r, root, n);
          return;
        }
        KeysGrow(r, m1, m, iset{n});
        AllLinkedStep(r, m1, m, processed, n);
        processed := processed + {n};
      }
      forall n | n in initial ensures Settled(r, m, n) && LinksOk(r, n) {
        assert LinkedOne(r, m, n);
      }
      LinkedNow(r, old(m), m, root);
      return true;
    }
  }

  ghost predicate LinkedOne(r: Resolved, m: map<string, Target>, n: string) {
    Settled(r, m, n) && LinksOk(r, n)
  }

  ghost predicate AllLinked(r: Resolved, m: map<string, Target>, done: set<string>) {
    forall n :: n in done ==> LinkedOne(r, m, n)
  }

  lemma AllLinkedStep(r: Resolved, m: map<string, Target>, m': map<string, Target>, done: set<string>, n: string)
    requires AllLinked(r, m, done) && Grown(r, m, m', iset{n}) && LinkedOne(r, m', n)
    ensures AllLinked(r, m', done + {n})
  {
    forall x | x in done + {n} ensures LinkedOne(r, m', x) {
      if x != n {
        assert LinkedOne(r, m, x);
        SettledGrows(r, m, m', iset{n}, x);
      }
    }
  }

  lemma KeysGrow(r: Resolved, m: map<string, Target>, m': map<string, Target>, root: iset<string>)
    requires Grown(r, m, m', root)
    ensures m.Keys <= m'.Keys
  {
    forall n | n in m ensures n in m' { assert EntryGrown(m, m', n); }
  }

  lemma BadRoot(r: Resolved, root: iset<string>, n: string)
    requires !LinksOk(r, n) && exists a :: a in root && Reaches(Edge(r), a, n)
    ensures exists a :: a in root && !LinksOk(r, a)
  {
    var a :| a in root && Reaches(Edge(r), a, n);
    if LinksOk(r, a) {
      LinksOkDown(r, a, n);
      assert false;
    }
  }

  lemma AllContextsDone(r: Resolved, m: map<string, Target>, n: string, contexts: map<string, string>)
    requires Consistent(r, m) && n in m && n in r && contexts == r[n].contexts
    requires ContextsDone(r, m, n, contexts, contexts.Keys)
    ensures LinksOk(r, n) && Settled(r, m, n)
  {
    assert EntryOk(r, m, n);
    forall b | Edge(r)(n, b) ensures LinkDone(r, m, n, b) {
      var k :| k in contexts && LinkOf(contexts[k]) == Some(b);
      assert ContextDone(r, m, n, contexts[k]);
    }
    AllLinksDone(r, m, n);
  }

  ghost predicate ContextDone(r: Resolved, m: map<string, Target>, n: string, context: string) {
    LinkOf(context).Some? ==> LinkDone(r, m, n, LinkOf(context).value)
  }

  /** The contexts under the keys `done` have been loaded. */
  ghost predicate ContextsDone(r: Resolved, m: map<string, Target>, n: string, contexts: map<string, string>, done: set<string>) {
    forall k :: k in done && k in contexts ==> ContextDone(r, m, n, contexts[k])
  }

  lemma ContextsStep(r: Resolved, m: map<string, Target>, m': map<string, Target>, n: string, contexts: map<string, string>, done: set<string>, k: string)
    requires ContextsDone(r, m, n, contexts, done) && Grown(r, m, m', iset{n})
    requires k in contexts && ContextDone(r, m', n, contexts[k])
    ensures ContextsDone(r, m', n, contexts, done + {k})
  {
    forall j | j in done + {k} && j in contexts ensures ContextDone(r, m', n, contexts[j]) {
      if j != k {
        assert ContextDone(r, m, n, contexts[j]);
        if LinkOf(contexts[j]).Some? { LinkDoneGrows(r, m, m', iset{n}, n, LinkOf(contexts[j]).value); }
      }
    }
  }

  lemma GrownSelf(r: Resolved, m: map<string, Target>, root: iset<string>)
    ensures Grown(r, m, m, root)
  {
  }

  ghost predicate AllSettled(r: Resolved, m: map<string, Target>) {
    forall n :: n in m ==> Settled(r, m, n)
  }

  /** Every loaded target is reached from one that was there at the start. */
  lemma RootOf(r: Resolved, m: map<string, Target>, m': map<string, Target>, root: iset<string>, n: string)
    requires Grown(r, m, m', root) && n in m' && (forall x :: x in m <==> x in root)
    ensures exists a :: a in root && Reaches(Edge(r), a, n)
  {
    ReachesSelf(Edge(r), n);
    if n !in m { assert PulledIn(r, m', root, n); }
  }

  /** After linking, exactly the targets that the first ones reach are there. */
  ghost predicate ReachedAreLoaded(r: Resolved, m: map<string, Target>, m': map<string, Target>) {
    forall n :: n in m' <==> exists a :: a in m && Reaches(Edge(r), a, n)
  }

  /** Each has exactly its own entitlements and those of all targets it reaches. */
  ghost predicate Entitled(r: Resolved, m': map<string, Target>) {
    forall n, e :: n in m' ==> (e in m'[n].entitlements <==> Inherited(r, n, e))
  }

  /** Exactly the targets that were pulled in are marked as linked, and write no output but the cache. */
  ghost predicate MarkedPulledIn(m: map<string, Target>, m': map<string, Target>) {
    forall n :: n in m' ==>
      if n in m then m'[n].linked == m[n].linked && m'[n].outputs == m[n].outputs
      else m'[n].linked && m'[n].outputs == ["cacheonly"]
  }

  /** The result of linking: who is there, what they are entitled to, and how they are marked. */
  ghost predicate Linked(r: Resolved, m: map<string, Target>, m': map<string, Target>) {
    ReachedAreLoaded(r, m, m') && Entitled(r, m') && MarkedPulledIn(m, m') && AllSettled(r, m')
  }

  lemma LinkedNow(r: Resolved, m: map<string, Target>, m': map<string, Target>, root: iset<string>)
    requires Consistent(r, m') && Grown(r, m, m', root) && (forall x :: x in m <==> x in root)
    requires forall n :: n in m ==> Settled(r, m', n)
    ensures Linked(r, m, m')
  {
    LoadedNow(r, m, m', root);
    SettledEverywhere(r, m, m');
    forall n, e | n in m' ensures e in m'[n].entitlements <==> Inherited(r, n, e) {
      ExactlyInherited(r, m', n, e);
    }
    MarkedNow(r, m, m', root);
  }

  lemma LoadedNow(r: Resolved, m: map<string, Target>, m': map<string, Target>, root: iset<string>)
    requires Grown(r, m, m', root) && (forall x :: x in m <==> x in root)
    requires forall n :: n in m ==> Settled(r, m', n)
    ensures ReachedAreLoaded(r, m, m')
  {
    forall n | n in m' ensures exists a :: a in m && Reaches(Edge(r), a, n) {
      RootOf(r, m, m', root, n);
    }
    forall n, a | a in m && Reaches(Edge(r), a, n) ensures n in m' {
      assert Settled(r, m', a);
      assert Complete(r, m', n);
    }
  }

  lemma MarkedNow(r: Resolved, m: map<string, Target>, m': map<string, Target>, root: iset<string>)
    requires Grown(r, m, m', root)
    ensures MarkedPulledIn(m, m')
  {
    forall n | n in m'
      ensures if n in m then m'[n].linked == m[n].linked && m'[n].outputs == m[n].outputs
              else m'[n].linked && m'[n].outputs == CACHE_ONLY
    {
      if n in m { assert EntryGrown(m, m', n); } else { assert PulledIn(r, m', root, n); }
    }
  }

  lemma SettledEverywhere(r: Resolved, m: map<string, Target>, m': map<string, Target>)
    requires ReachedAreLoaded(r, m, m')
    requires forall n :: n in m ==> Settled(r, m', n)
    ensures AllSettled(r, m')
  {
    forall n | n in m' ensures Settled(r, m', n) {
      var a :| a in m && Reaches(Edge(r), a, n);
      forall x | Reaches(Edge(r), n, x) ensures Complete(r, m', x) {
        ReachesTrans(Edge(r), a, n, x);
        assert Settled(r, m', a);
      }
    }
  }

  lemma ExactlyInherited(r: Resolved, m: map<string, Target>, n: string, e: string)
    requires Consistent(r, m) && n in m && Settled(r, m, n)
    ensures e in m[n].entitlements <==> Inherited(r, n, e)
  {
    ReachesSelf(Edge(r), n);
    assert EntryOk(r, m, n) && Complete(r, m, n);
  }

  /** Targets fresh from resolution are a consistent start. */
  lemma FreshConsistent(r: Resolved, m: map<string, Target>)
    requires forall n :: n in m ==> n in r && m[n] == r[n]
    ensures Consistent(r, m)
  {
    forall n | n in m ensures EntryOk(r, m, n) {
      ReachesSelf(Edge(r), n);
    }
  }

  lemma Extend(r: Resolved, path: seq<string>, n: string, b: string)
    requires Chain(Edge(r), path + [n]) && Edge(r)(n, b)
    ensures Chain(Edge(r), path + [n] + [b])
  {
    var p := path + [n];
    forall i | 0 <= i < |p + [b]| - 1 ensures Edge(r)((p + [b])[i], (p + [b])[i + 1]) {
      if i < |p| - 1 { assert Edge(r)(p[i], p[i + 1]); }
    }
  }

  /** In a settled state, every link is loaded and settled already. */
  lemma PulledNothing(r: Resolved, m: map<string, Target>, n: string, b: string)
    requires Settled(r, m, n) && Edge(r)(n, b)
    ensures b in m && Settled(r, m, b)
  {
    forall x | Reaches(Edge(r), b, x) ensures Complete(r, m, x) {
      StepReaches(Edge(r), n, b, x);
    }
    ReachesSelf(Edge(r), b);
    assert Complete(r, m, b);
  }
}
