/**
 Resolving a target through the targets it inherits from. The search remembers
 the targets it has resolved and answers with nothing for those it is still
 working on, so that it ends on any inherits graph.
 */
module Inherits {
  import opened Common
  import opened Graphs
  import opened Targets
  import opened Slices
  import O = Overrides

  /** The overrides of a target come in the order in which their map is visited. */
  datatype Config = Config(targets: seq<Target>, overrides: map<string, seq<O.Entry>>)

  /** The first target with this name. */
  function Find(ts: seq<Target>, name: string): (r: Option<Target>)
    ensures r.Some? ==> r.value in ts && r.value.name == name
    ensures r.None? ==> forall t :: t in ts ==> t.name != name
  {
    if ts == [] then None else if ts[0].name == name then Some(ts[0]) else Find(ts[1..], name)
  }

  lemma {:induction false} FindFirst(ts: seq<Target>, i: nat)
    requires i < |ts| && forall j :: 0 <= j < i ==> ts[j].name != ts[i].name
    ensures Find(ts, ts[i].name) == Some(ts[i])
  {
    if i > 0 {
      FindFirst(ts[1..], i - 1);
    }
  }

  function Names(c: Config): set<string> {
    set t | t in c.targets :: t.name
  }

  function Parents(c: Config, n: string): seq<string> {
    match Find(c.targets, n)
    case Some(t) => t.lists.inherits
    case None => []
  }

  ghost function Edge(c: Config): (string, string) -> bool {
    (a, b) => b in Parents(c, a)
  }

  function OverridesFor(c: Config, n: string): seq<O.Entry> {
    if n in c.overrides then c.overrides[n] else []
  }

  /** Targets merged in order, later ones over earlier ones. */
  function MergeAll(ts: seq<Target>): Target {
    if ts == [] then DefaultTarget() else Merged(MergeAll(ts[..|ts| - 1]), ts[|ts| - 1])
  }

  /** A target, given what its parents were merged into. */
  ghost function Build(c: Config, own: Target, parents: Target): Option<Target> {
    var acts := O.Acts(OverridesFor(c, own.name));
    var m := Merged(Merged(DefaultTarget(), parents), own);
    if O.AllValid(acts) then Some(O.Normalized(O.Overridden(m, acts))) else None
  }

  /** How a target is put together from its own settings and the definitions of its parents. */
  type Builder = (Target, seq<Target>) -> Option<Target>

  ghost function BuildOf(c: Config): Builder {
    (own, parents) => Build(c, own, MergeAll(parents))
  }

  /**
   The recursive definition, without memory: merge the parents in order, then the
   target's own settings, then the overrides. A name that is missing, or that is
   already on the way down, has no definition.
   */
  ghost function Defined(c: Config, mk: Builder, n: string, path: set<string>): Option<Target>
    decreases Names(c) - path, 0
  {
    match Find(c.targets, n)
    case None => None
    case Some(own) =>
      if n in path then None
      else
        match DefinedAll(c, mk, own.lists.inherits, |own.lists.inherits|, path + {n})
        case None => None
        case Some(parents) => mk(own, parents)
  }

  /** The definitions of the first `k` parents. */
  ghost function DefinedAll(c: Config, mk: Builder, ps: seq<string>, k: nat, path: set<string>): (r: Option<seq<Target>>)
    requires k <= |ps|
    ensures r.Some? ==> |r.value| == k
    decreases Names(c) - path, 1, k
  {
    if k == 0 then Some([])
    else
      Both(DefinedAll(c, mk, ps, k - 1, path), Defined(c, mk, ps[k - 1], path))
  }

  /** One more target, if there are all. */
  function Both(ts: Option<seq<Target>>, p: Option<Target>): Option<seq<Target>> {
    if ts.Some? && p.Some? then Some(ts.value + [p.value]) else None
  }

  /** Nothing reachable from `n` is on a cycle. */
  ghost predicate AcyclicFrom(c: Config, n: string) {
    forall x :: Reaches(Edge(c), n, x) ==> !OnCycle(Edge(c), x)
  }

  ghost predicate Avoids(c: Config, n: string, path: set<string>) {
    forall x :: x in path ==> !Reaches(Edge(c), n, x)
  }

  lemma AcyclicDown(c: Config, n: string, p: string)
    requires AcyclicFrom(c, n) && Edge(c)(n, p)
    ensures AcyclicFrom(c, p) && !Reaches(Edge(c), p, n)
  {
    forall x | Reaches(Edge(c), p, x) ensures !OnCycle(Edge(c), x) {
      StepReaches(Edge(c), n, p, x);
    }
    ReachesSelf(Edge(c), n);
  }

  lemma AvoidsDown(c: Config, n: string, p: string, path: set<string>)
    requires AcyclicFrom(c, n) && Edge(c)(n, p) && Avoids(c, n, path)
    ensures Avoids(c, p, path + {n})
  {
    AcyclicDown(c, n, p);
    forall x | x in path + {n} ensures !Reaches(Edge(c), p, x) {
      if x != n && Reaches(Edge(c), p, x) {
        StepReaches(Edge(c), n, p, x);
        assert false;
      }
    }
  }

  /** On an acyclic graph the definition does not depend on the way taken to a target. */
  lemma {:induction false} PathDoesNotMatter(c: Config, mk: Builder, n: string, path1: set<string>, path2: set<string>)
    requires AcyclicFrom(c, n) && Avoids(c, n, path1) && Avoids(c, n, path2)
    ensures Defined(c, mk, n, path1) == Defined(c, mk, n, path2)
    decreases Names(c) - path1, 0
  {
    ReachesSelf(Edge(c), n);
    assert n !in path1 && n !in path2;
    var own := Find(c.targets, n);
    if own.Some? {
      var ps := own.value.lists.inherits;
      PathDoesNotMatterAll(c, mk, n, ps, |ps|, path1, path2);
    }
  }

  lemma {:induction false} PathDoesNotMatterAll(c: Config, mk: Builder, n: string, ps: seq<string>, k: nat, path1: set<string>, path2: set<string>)
    requires AcyclicFrom(c, n) && Avoids(c, n, path1) && Avoids(c, n, path2)
    requires Find(c.targets, n).Some? && ps == Parents(c, n) && k <= |ps| && n !in path1
    ensures DefinedAll(c, mk, ps, k, path1 + {n}) == DefinedAll(c, mk, ps, k, path2 + {n})
    decreases Names(c) - (path1 + {n}), 1, k
  {
    if k > 0 {
      var p := ps[k - 1];
      assert Edge(c)(n, p);
      PathDoesNotMatterAll(c, mk, n, ps, k - 1, path1, path2);
      AcyclicDown(c, n, p);
      AvoidsDown(c, n, p, path1);
      AvoidsDown(c, n, p, path2);
      PathDoesNotMatter(c, mk, p, path1 + {n}, path2 + {n});
    }
  }

  datatype Answer = Nothing | Got(t: Target) | Failed

  /** The definition of `n` is `r`. */
  ghost predicate Means(c: Config, mk: Builder, n: string, r: Option<Target>) {
    forall path :: path == {} ==> Defined(c, mk, n, path) == r
  }

  /** The first `k` parents of `n` are defined as `r`. */
  ghost predicate ParentsMean(c: Config, mk: Builder, n: string, k: nat, r: Option<seq<Target>>) {
    forall path :: path == {n} && k <= |Parents(c, n)| ==> DefinedAll(c, mk, Parents(c, n), k, path) == r
  }

  lemma MeansMissing(c: Config, mk: Builder, n: string)
    requires Find(c.targets, n).None?
    ensures Means(c, mk, n, None)
  {
  }

  lemma MeansBuilt(c: Config, mk: Builder, n: string, own: Target, parents: Option<seq<Target>>)
    requires Find(c.targets, n) == Some(own) && ParentsMean(c, mk, n, |Parents(c, n)|, parents)
    ensures Means(c, mk, n, if parents.None? then None else mk(own, parents.value))
  {
    var ps := Parents(c, n);
    assert {} + {n} == {n};
    assert DefinedAll(c, mk, ps, |ps|, {n}) == parents;
  }

  lemma ParentsMeanNone(c: Config, mk: Builder, n: string)
    ensures ParentsMean(c, mk, n, 0, Some([]))
  {
  }

  /** One more parent is merged in, or spoils the definition. */
  lemma ParentsMeanStep(c: Config, mk: Builder, root: string, n: string, k: nat, ts: seq<Target>, p: Option<Target>)
    requires AcyclicFrom(c, root) && Reaches(Edge(c), root, n) && k < |Parents(c, n)|
    requires ParentsMean(c, mk, n, k, Some(ts)) && Means(c, mk, Parents(c, n)[k], p)
    ensures p.Some? ==> ParentsMean(c, mk, n, k + 1, Some(ts + [p.value]))
    ensures p.None? ==> ParentsMean(c, mk, n, |Parents(c, n)|, None)
  {
    var ps := Parents(c, n);
    assert Edge(c)(n, ps[k]);
    ParentFits(c, mk, root, n, ps[k]);
    assert Defined(c, mk, ps[k], {n}) == p;
    assert DefinedAll(c, mk, ps, k, {n}) == Some(ts);
    if p.None? {
      FailedParent(c, mk, ps, k, |ps|, {n});
    }
  }

  lemma AllOneMore(c: Config, mk: Builder, ps: seq<string>, k: nat, path: set<string>)
    requires 0 < k <= |ps|
    ensures DefinedAll(c, mk, ps, k, path) == Both(DefinedAll(c, mk, ps, k - 1, path), Defined(c, mk, ps[k - 1], path))
  {
  }

  lemma {:induction false} FailedParent(c: Config, mk: Builder, ps: seq<string>, i: nat, k: nat, path: set<string>)
    requires i < k <= |ps| && Defined(c, mk, ps[i], path) == None
    ensures DefinedAll(c, mk, ps, k, path) == None
  {
    if i < k - 1 {
      FailedParent(c, mk, ps, i, k - 1, path);
    }
    AllOneMore(c, mk, ps, k, path);
  }

  /** The memory of one parent fits the definition of the target that inherits from it. */
  lemma ParentFits(c: Config, mk: Builder, root: string, n: string, p: string)
    requires AcyclicFrom(c, root) && Reaches(Edge(c), root, n) && Edge(c)(n, p)
    ensures Reaches(Edge(c), root, p) && Defined(c, mk, p, {n}) == Defined(c, mk, p, {})
  {
    ReachesStep(Edge(c), root, n, p);
    forall x | Reaches(Edge(c), n, x) ensures !OnCycle(Edge(c), x) { ReachesTrans(Edge(c), root, n, x); }
    AcyclicDown(c, n, p);
    PathDoesNotMatter(c, mk, p, {n}, {});
  }

  /** What the search remembers about `x`: nothing while it is being resolved, its definition afterwards. */
  ghost predicate EntryOk(c: Config, mk: Builder, visited: map<string, Option<Target>>, stack: seq<string>, x: string) {
    x in visited && if visited[x].None? then x in stack else Means(c, mk, x, visited[x])
  }

  ghost predicate Remembers(c: Config, mk: Builder, visited: map<string, Option<Target>>, stack: seq<string>) {
    && Chain(Edge(c), stack)
    && forall x :: x in visited ==> EntryOk(c, mk, visited, stack, x)
  }

  lemma RememberStart(c: Config, mk: Builder, visited: map<string, Option<Target>>, stack: seq<string>, n: string)
    requires Remembers(c, mk, visited, stack) && (stack != [] ==> Edge(c)(stack[|stack| - 1], n))
    ensures Remembers(c, mk, visited[n := None], stack + [n])
  {
    var visited' := visited[n := None];
    forall x | x in visited' ensures EntryOk(c, mk, visited', stack + [n], x) {
      if x != n { assert EntryOk(c, mk, visited, stack, x); } else { assert (stack + [n])[|stack|] == n; }
    }
  }

  lemma RememberEnd(c: Config, mk: Builder, visited: map<string, Option<Target>>, stack: seq<string>, n: string, t: Target)
    requires Remembers(c, mk, visited, stack + [n]) && Means(c, mk, n, Some(t))
    ensures Remembers(c, mk, visited[n := Some(t)], stack)
  {
    var visited' := visited[n := Some(t)];
    forall i | 0 <= i < |stack| - 1 ensures Edge(c)(stack[i], stack[i + 1]) {
      assert (stack + [n])[i] == stack[i] && (stack + [n])[i + 1] == stack[i + 1];
    }
    forall x | x in visited' ensures EntryOk(c, mk, visited', stack, x) {
      if x != n { assert EntryOk(c, mk, visited, stack + [n], x); }
    }
  }

  /** On an acyclic graph the search never meets a target it is working on. */
  lemma NeverNothing(c: Config, stack: seq<string>, root: string, n: string)
    requires AcyclicFrom(c, root) && Reaches(Edge(c), root, n)
    requires Chain(Edge(c), stack) && (stack != [] ==> Edge(c)(stack[|stack| - 1], n))
    ensures n !in stack
  {
    if n in stack {
      var i :| 0 <= i < |stack| && stack[i] == n;
      ChainClosesCycle(Edge(c), stack, i);
      assert false;
    }
  }

  class Resolver {
    const c: Config
    ghost const root: string

    /** Whether the graph below the root is acyclic. */
    ghost const hyp: bool

    /** How targets are put together. */
    ghost const mk: Builder
    var visited: map<string, Option<Target>>

    constructor (c: Config, ghost root: string)
      ensures this.c == c && this.root == root && hyp == AcyclicFrom(c, root) && mk == BuildOf(c) && visited == map[]
    {
      this.c, this.root := c, root;
      hyp := AcyclicFrom(c, root);
      mk := BuildOf(c);
      visited := map[];
    }

    ghost predicate Set() {
      hyp == AcyclicFrom(c, root) && mk == BuildOf(c)
    }

    ghost predicate Good(stack: seq<string>)
      reads this
    {
      hyp ==> Remembers(c, mk, visited, stack)
    }

    ghost predicate Matches(a: Answer, n: string) {
      match a
      case Nothing => false
      case Got(t) => Means(c, mk, n, Some(t))
      case Failed => Means(c, mk, n, None)
    }

    /** The names that have not been looked at yet. */
    ghost function Fresh(): set<string>
      reads this
    {
      Names(c) - visited.Keys
    }

    /** Resolves a target; it ends on every graph, and on an acyclic one it finds the definition. */
    method Resolve(n: string, ghost stack: seq<string>) returns (a: Answer)
      requires Set() && Good(stack) && Reaches(Edge(c), root, n)
      requires hyp && stack != [] ==> Edge(c)(stack[|stack| - 1], n)
      modifies this
      ensures Fresh() <= old(Fresh())
      ensures hyp ==> Matches(a, n)
      ensures a != Failed ==> Good(stack)
      decreases Fresh(), 0, 0
    {
      if n in visited {
        if hyp {
          assert EntryOk(c, mk, visited, stack, n);
          NeverNothing(c, stack, root, n);
        }
        return if visited[n].None? then Nothing else Got(visited[n].value);
      }
      if hyp { RememberStart(c, mk, visited, stack, n); }
      visited := visited[n := None];
      var own := Find(c.targets, n);
      if own.None? {
        MeansMissing(c, mk, n);
        return Failed;
      }
      assert n in old(Fresh()) && n !in Fresh();
      ghost var parents;
      var merged;
      merged, parents := MergeParents(n, own.value.lists.inherits, stack + [n]);
      if hyp { MeansBuilt(c, mk, n, own.value, parents); }
      if merged.None? {
        return Failed;
      }
      var t := Assemble(own.value, merged.value);
      if t.None? {
        return Failed;
      }
      if hyp { RememberEnd(c, mk, visited, stack, n, t.value); }
      visited := visited[n := t];
      return Got(t.value);
    }

    /** Default settings, then the parents, then the target itself, then overrides, cleaned up. */
    method Assemble(own: Target, parents: Target) returns (t: Option<Target>)
      ensures t == Build(c, own, parents)
    {
      var m := new TargetObject();
      m.Merge(parents);
      m.Merge(own);
      var o := O.AddOverrides(m.View(), OverridesFor(c, own.name));
      if o.None? {
        return None;
      }
      return Some(O.Normalized(o.value));
    }

    method MergeParents(n: string, ps: seq<string>, ghost stack: seq<string>)
      returns (r: Option<Target>, ghost parents: Option<seq<Target>>)
      requires Set() && Good(stack) && Reaches(Edge(c), root, n)
      requires ps == Parents(c, n) && stack != [] && stack[|stack| - 1] == n
      modifies this
      ensures Fresh() <= old(Fresh())
      ensures hyp ==> ParentsMean(c, mk, n, |ps|, parents)
      ensures hyp ==> r == if parents.None? then None else Some(MergeAll(parents.value))
      ensures r.Some? ==> Good(stack)
      decreases Fresh(), 1
    {
      var tt := new TargetObject();
      ghost var got: seq<Target> := [];
      ParentsMeanNone(c, mk, n);
      for i := 0 to |ps|
        invariant fresh(tt) && Good(stack) && Fresh() <= old(Fresh())
        invariant hyp ==> ParentsMean(c, mk, n, i, Some(got)) && tt.View() == MergeAll(got)
      {
        var a := ResolveParent(n, ps, i, got, stack);
        if a == Failed {
          return None, None;
        }
        if a.Got? {
          tt.Merge(a.t);
          ghost var got' := got + [a.t];
          assert got'[..|got'| - 1] == got;
          got := got';
        }
      }
      return Some(tt.View()), Some(got);
    }

    method ResolveParent(n: string, ps: seq<string>, i: nat, ghost got: seq<Target>, ghost stack: seq<string>) returns (a: Answer)
      requires Set() && Good(stack) && Reaches(Edge(c), root, n)
      requires ps == Parents(c, n) && i < |ps| && stack != [] && stack[|stack| - 1] == n
      requires hyp ==> ParentsMean(c, mk, n, i, Some(got))
      modifies this
      ensures Fresh() <= old(Fresh())
      ensures a != Failed ==> Good(stack)
      ensures hyp ==> a != Nothing && if a.Got? then ParentsMean(c, mk, n, i + 1, Some(got + [a.t])) else ParentsMean(c, mk, n, |ps|, None)
      decreases Fresh(), 0, 1
    {
      assert Edge(c)(n, ps[i]);
      ReachesStep(Edge(c), root, n, ps[i]);
      a := Resolve(ps[i], stack);
      if hyp { ParentsMeanStep(c, mk, root, n, i, got, if a.Got? then Some(a.t) else None); }
    }
  }

  /** The last touches on a resolved target: no inherits left, and defaults for context and Dockerfile. */
  function Finished(t: Target): Target {
    t.(lists := t.lists.(inherits := []), scalars := map[Context := ".", Dockerfile := "Dockerfile"] + t.scalars)
  }

  /** Settings of which the last one given decides. */
  datatype Setting = ScalarOf(f: Field) | ArgOf(n: string) | LabelOf(n: string) | ContextOf(n: string) | ListOf(l: ListField)

  datatype Val = One(value: string) | Many(values: seq<string>)

  function EntryOf(m: map<string, Option<string>>, n: string): Option<Val> {
    if n in m && m[n].Some? then Some(One(m[n].value)) else None
  }

  function Look(t: Target, s: Setting): Option<Val> {
    match s
    case ScalarOf(f) => if f in t.scalars then Some(One(t.scalars[f])) else None
    case ArgOf(n) => EntryOf(t.entries.args, n)
    case LabelOf(n) => EntryOf(t.entries.labels, n)
    case ContextOf(n) => if n in t.entries.contexts then Some(One(t.entries.contexts[n])) else None
    case ListOf(l) => if l in t.replaced then Some(Many(t.replaced[l])) else None
  }

  function SlotFor(s: Setting): O.Slot {
    match s
    case ScalarOf(f) => O.Scalar(f)
    case ArgOf(n) => O.Named(O.Args, n)
    case LabelOf(n) => O.Named(O.Labels, n)
    case ContextOf(n) => O.Named(O.Contexts, n)
    case ListOf(l) => O.Replace(l)
  }

  function ValueOf(s: Setting, v: O.Override): Val {
    match s
    case ScalarOf(f) => One(O.Canon(f, v.value))
    case ListOf(_) => Many(v.arr)
    case _ => One(v.value)
  }

  /** What the clean-up leaves of a value: an empty context goes, and so do empty and repeated list elements. */
  function Cleaned(s: Setting, v: Option<Val>): Option<Val> {
    if s.ContextOf? && v == Some(One("")) then None
    else if s.ListOf? && v.Some? && v.value.Many? then Some(Many(Kept(v.value.values)))
    else v
  }

  /** The second value wins when it is set. */
  function Pick(a: Option<Val>, b: Option<Val>): Option<Val> {
    if b.Some? then b else a
  }

  /** The last override of a setting. */
  function LastFor(acts: seq<O.Act>, k: O.Slot): Option<O.Override> {
    if acts == [] then None
    else if acts[|acts| - 1].slot == k then Some(acts[|acts| - 1].over)
    else LastFor(acts[..|acts| - 1], k)
  }

  function Given(acts: seq<O.Act>, s: Setting): Option<Val> {
    match LastFor(acts, SlotFor(s))
    case None => None
    case Some(v) => Some(ValueOf(s, v))
  }

  lemma LookMerged(a: Target, b: Target, s: Setting)
    ensures Look(Merged(a, b), s) == Pick(Look(a, s), Look(b, s))
  {
  }

  lemma LookApply(t: Target, k: O.Slot, v: O.Override, s: Setting)
    ensures Look(O.ApplyOne(t, k, v), s) == if k == SlotFor(s) then Some(ValueOf(s, v)) else Look(t, s)
  {
  }

  /** A setting shows its last override, and what it was without one. */
  lemma {:induction false} LookOverridden(t: Target, acts: seq<O.Act>, s: Setting)
    ensures Look(O.Overridden(t, acts), s) == Pick(Look(t, s), Given(acts, s))
  {
    if acts != [] {
      var n := |acts| - 1;
      LookOverridden(t, acts[..n], s);
      LookApply(O.Overridden(t, acts[..n]), acts[n].slot, acts[n].over, s);
    }
  }

  lemma LookNormalized(t: Target, s: Setting)
    ensures Look(O.Normalized(t), s) == Cleaned(s, Look(t, s))
  {
  }

  /** Override over own value over parents; what is left is then cleaned up, so that an empty context erases a parent's. */
  lemma Precedence(c: Config, own: Target, parents: Target, s: Setting)
    requires Build(c, own, parents).Some?
    ensures Look(Build(c, own, parents).value, s) ==
            Cleaned(s, Pick(Pick(Look(parents, s), Look(own, s)), Given(O.Acts(OverridesFor(c, own.name)), s)))
  {
    var acts := O.Acts(OverridesFor(c, own.name));
    var m := Merged(Merged(DefaultTarget(), parents), own);
    LookMerged(DefaultTarget(), parents, s);
    LookMerged(Merged(DefaultTarget(), parents), own, s);
    LookOverridden(m, acts, s);
    LookNormalized(O.Overridden(m, acts), s);
  }

  /** Among the parents the last one that sets a value decides. */
  lemma {:induction false} LaterParentWins(ts: seq<Target>, s: Setting, j: nat)
    requires j < |ts| && Look(ts[j], s).Some?
    requires forall i :: j < i < |ts| ==> Look(ts[i], s).None?
    ensures Look(MergeAll(ts), s) == Look(ts[j], s)
  {
    LookMerged(MergeAll(ts[..|ts| - 1]), ts[|ts| - 1], s);
    if j < |ts| - 1 {
      LaterParentWins(ts[..|ts| - 1], s, j);
    }
  }

  /** A value that no parent sets is not set. */
  lemma {:induction false} NoParentSets(ts: seq<Target>, s: Setting)
    requires forall i :: 0 <= i < |ts| ==> Look(ts[i], s).None?
    ensures Look(MergeAll(ts), s).None?
  {
    if ts != [] {
      LookMerged(MergeAll(ts[..|ts| - 1]), ts[|ts| - 1], s);
      NoParentSets(ts[..|ts| - 1], s);
    }
  }

  /** What a setting shows when nothing sets it. */
  function Fallback(s: Setting): Option<Val> {
    match s
    case ScalarOf(Context) => Some(One("."))
    case ScalarOf(Dockerfile) => Some(One("Dockerfile"))
    case _ => None
  }

  /** `t` is the finished form of the definition `d`: what is set stays, what is not shows its fallback, and nothing is inherited any more. */
  ghost predicate FinalOf(d: Target, t: Target) {
    && (forall s :: Look(t, s) == Pick(Fallback(s), Look(d, s)))
    && t.name == d.name && t.entries == d.entries && t.replaced == d.replaced
    && t.lists == d.lists.(inherits := [])
  }

  lemma FinishedIsFinal(d: Target)
    ensures FinalOf(d, Finished(d))
  {
  }

  /** The value that decides: an override, else the target's own, else that of its last parent that sets it, else the fallback. */
  ghost function Shown(c: Config, name: string, s: Setting): Option<Val> {
    match (Find(c.targets, name), DefinedAll(c, BuildOf(c), Parents(c, name), |Parents(c, name)|, {name}))
    case (Some(own), Some(parents)) =>
      Pick(Fallback(s), Cleaned(s, Pick(Pick(LastSet(parents, s), Look(own, s)), Given(O.Acts(OverridesFor(c, own.name)), s))))
    case _ => None
  }

  /** What the last of the targets that sets `s` says. */
  function LastSet(ts: seq<Target>, s: Setting): Option<Val> {
    if ts == [] then None
    else if Look(ts[|ts| - 1], s).Some? then Look(ts[|ts| - 1], s)
    else LastSet(ts[..|ts| - 1], s)
  }

  lemma {:induction false} MergeShowsLast(ts: seq<Target>, s: Setting)
    ensures Look(MergeAll(ts), s) == LastSet(ts, s)
  {
    if ts != [] {
      MergeShowsLast(ts[..|ts| - 1], s);
      LookMerged(MergeAll(ts[..|ts| - 1]), ts[|ts| - 1], s);
    }
  }

  lemma FinalPrecedence(c: Config, name: string, d: Target, s: Setting)
    requires Defined(c, BuildOf(c), name, {}) == Some(d)
    ensures Pick(Fallback(s), Look(d, s)) == Shown(c, name, s)
  {
    var own, ps := Find(c.targets, name).value, Parents(c, name);
    assert {} + {name} == {name};
    var parents := DefinedAll(c, BuildOf(c), ps, |ps|, {name}).value;
    Precedence(c, own, MergeAll(parents), s);
    MergeShowsLast(parents, s);
  }

  /** Lists to which parents and the target itself add. */
  datatype ListKind = Annotations | Entitlements | NoCacheFilters | Ulimits

  function Listed(t: Target, k: ListKind): seq<string> {
    match k
    case Annotations => t.lists.annotations
    case Entitlements => t.lists.entitlements
    case NoCacheFilters => t.lists.noCacheFilter
    case Ulimits => t.lists.ulimits
  }

  /** What all targets list, one after the other. */
  function AllListed(ts: seq<Target>, k: ListKind): seq<string> {
    if ts == [] then [] else AllListed(ts[..|ts| - 1], k) + Listed(ts[|ts| - 1], k)
  }

  /** What all overrides of this kind give, in order. */
  function AllAdded(acts: seq<O.Act>, k: O.Slot): seq<string> {
    if acts == [] then []
    else AllAdded(acts[..|acts| - 1], k) + if acts[|acts| - 1].slot == k then acts[|acts| - 1].over.arr else []
  }

  /** Overrides add annotations and entitlements; they replace the other lists. */
  function ListOverridden(l: seq<string>, acts: seq<O.Act>, k: ListKind): seq<string> {
    match k
    case Annotations => l + AllAdded(acts, O.AddAnnotations)
    case Entitlements => l + AllAdded(acts, O.AddEntitlements)
    case NoCacheFilters => (match LastFor(acts, O.SetNoCacheFilter) case None => l case Some(v) => v.arr)
    case Ulimits => (match LastFor(acts, O.SetUlimits) case None => l case Some(v) => v.arr)
  }

  lemma MergedList(a: Target, b: Target, k: ListKind)
    ensures Listed(Merged(a, b), k) == Listed(a, k) + Listed(b, k)
  {
  }

  lemma {:induction false} MergeListsAll(ts: seq<Target>, k: ListKind)
    ensures Listed(MergeAll(ts), k) == AllListed(ts, k)
  {
    if ts != [] {
      MergeListsAll(ts[..|ts| - 1], k);
      MergedList(MergeAll(ts[..|ts| - 1]), ts[|ts| - 1], k);
    }
  }

  /** What one override makes of a list. */
  function ListAfter(l: seq<string>, a: O.Act, k: ListKind): seq<string> {
    match (k, a.slot)
    case (Annotations, AddAnnotations) => l + a.over.arr
    case (Entitlements, AddEntitlements) => l + a.over.arr
    case (NoCacheFilters, SetNoCacheFilter) => a.over.arr
    case (Ulimits, SetUlimits) => a.over.arr
    case _ => l
  }

  lemma ListApply(t: Target, a: O.Act, k: ListKind)
    ensures Listed(O.ApplyOne(t, a.slot, a.over), k) == ListAfter(Listed(t, k), a, k)
  {
  }

  lemma ListOneMore(l: seq<string>, acts: seq<O.Act>, k: ListKind)
    requires acts != []
    ensures ListOverridden(l, acts, k) == ListAfter(ListOverridden(l, acts[..|acts| - 1], k), acts[|acts| - 1], k)
  {
  }

  lemma {:induction false} OverriddenLists(t: Target, acts: seq<O.Act>, k: ListKind)
    ensures Listed(O.Overridden(t, acts), k) == ListOverridden(Listed(t, k), acts, k)
  {
    if acts == [] {
      assert Listed(t, k) + [] == Listed(t, k);
    } else {
      var n := |acts| - 1;
      OverriddenLists(t, acts[..n], k);
      ListOneMore(Listed(t, k), acts, k);
      ListApply(O.Overridden(t, acts[..n]), acts[n], k);
    }
  }

  /** Host networking asks for its entitlement. */
  function Asked(t: Target, k: ListKind): seq<string> {
    if k == Entitlements && Look(t, ScalarOf(NetworkMode)) == Some(One("host")) then ["network.host"] else []
  }

  lemma NormalizedList(t: Target, k: ListKind)
    ensures Listed(O.Normalized(t), k) == Kept(Listed(t, k) + Asked(O.Normalized(t), k))
  {
    assert Listed(t, k) + [] == Listed(t, k);
  }

  /** The lists of a definition: what the parents list in order, then the target itself, with the overrides, without repetitions. */
  lemma DefinedLists(c: Config, own: Target, parents: seq<Target>, k: ListKind)
    requires Build(c, own, MergeAll(parents)).Some?
    ensures var d, acts := Build(c, own, MergeAll(parents)).value, O.Acts(OverridesFor(c, own.name));
            Listed(d, k) == Kept(ListOverridden(AllListed(parents, k) + Listed(own, k), acts, k) + Asked(d, k))
  {
    var acts, p := O.Acts(OverridesFor(c, own.name)), MergeAll(parents);
    MergeListsAll(parents, k);
    StartList(p, own, k);
    OverriddenLists(Merged(Merged(DefaultTarget(), p), own), acts, k);
    NormalizedList(O.Overridden(Merged(Merged(DefaultTarget(), p), own), acts), k);
  }

  lemma StartList(p: Target, own: Target, k: ListKind)
    ensures Listed(Merged(Merged(DefaultTarget(), p), own), k) == Listed(p, k) + Listed(own, k)
  {
    MergedList(DefaultTarget(), p, k);
    MergedList(Merged(DefaultTarget(), p), own, k);
    assert [] + Listed(p, k) == Listed(p, k);
  }

  /** What the lists of a resolved target hold: those of the parents in order, its own, the overrides and what it asks for. */
  ghost function ShownList(c: Config, name: string, k: ListKind, asked: seq<string>): seq<string> {
    match (Find(c.targets, name), DefinedAll(c, BuildOf(c), Parents(c, name), |Parents(c, name)|, {name}))
    case (Some(own), Some(parents)) =>
      Kept(ListOverridden(AllListed(parents, k) + Listed(own, k), O.Acts(OverridesFor(c, own.name)), k) + asked)
    case _ => []
  }

  lemma FinalLists(c: Config, name: string, d: Target, k: ListKind)
    requires Defined(c, BuildOf(c), name, {}) == Some(d)
    ensures Listed(d, k) == ShownList(c, name, k, Asked(d, k))
  {
    var own, ps := Find(c.targets, name).value, Parents(c, name);
    assert {} + {name} == {name};
    DefinedLists(c, own, DefinedAll(c, BuildOf(c), ps, |ps|, {name}).value, k);
  }

  lemma FinalKeepsLists(d: Target, t: Target, k: ListKind)
    requires FinalOf(d, t)
    ensures Listed(t, k) == Listed(d, k) && Asked(t, k) == Asked(d, k)
  {
    assert Look(t, ScalarOf(NetworkMode)) == Pick(Fallback(ScalarOf(NetworkMode)), Look(d, ScalarOf(NetworkMode)));
  }

  /** All that a resolved target shows. */
  lemma ResolvedShows(c: Config, name: string, d: Target, t: Target)
    requires Defined(c, BuildOf(c), name, {}) == Some(d) && FinalOf(d, t)
    ensures forall s :: Look(t, s) == Shown(c, name, s)
    ensures forall k :: Listed(t, k) == ShownList(c, name, k, Asked(t, k))
  {
    forall s ensures Look(t, s) == Shown(c, name, s) {
      FinalPrecedence(c, name, d, s);
    }
    forall k ensures Listed(t, k) == ShownList(c, name, k, Asked(t, k)) {
      FinalLists(c, name, d, k);
      FinalKeepsLists(d, t, k);
    }
  }

  method ResolveTarget(c: Config, name: string) returns (a: Answer)
    ensures AcyclicFrom(c, name) ==>
              match Defined(c, BuildOf(c), name, {})
              case Some(t) => a == Got(Finished(t)) && FinalOf(t, a.t)
              case None => a == Failed
    ensures AcyclicFrom(c, name) && a.Got? ==> forall s :: Look(a.t, s) == Shown(c, name, s)
    ensures AcyclicFrom(c, name) && a.Got? ==> forall k :: Listed(a.t, k) == ShownList(c, name, k, Asked(a.t, k))
  {
    var r := new Resolver(c, name);
    ReachesSelf(Edge(c), name);
    a := r.Resolve(name, []);
    if a.Got? {
      var d := a.t;
      FinishedIsFinal(d);
      a := Got(Finished(d));
      if AcyclicFrom(c, name) { ResolvedShows(c, name, d, a.t); }
    }
  }

  /** The key under which a setting is overridden; two settings cannot be. */
  function KeyFor(s: Setting): Option<string> {
    match s
    case ScalarOf(Context) => Some("context")
    case ScalarOf(Dockerfile) => Some("dockerfile")
    case ScalarOf(Stage) => Some("target")
    case ScalarOf(Call) => Some("call")
    case ScalarOf(NetworkMode) => Some("network")
    case ScalarOf(ShmSize) => Some("shm-size")
    case ScalarOf(Pull) => Some("pull")
    case ScalarOf(NoCache) => Some("no-cache")
    case ScalarOf(DockerfileInline) => None
    case ScalarOf(Description) => None
    case ListOf(Tags) => Some("tags")
    case ListOf(Platforms) => Some("platform")
    case ArgOf(n) => Some("args" + [O.DOT] + n)
    case LabelOf(n) => Some("labels" + [O.DOT] + n)
    case ContextOf(n) => Some("contexts" + [O.DOT] + n)
  }

  /** An override under the key of a setting sets it and no other. */
  lemma KeySets(t: Target, s: Setting, v: O.Override, other: Setting)
    requires KeyFor(s).Some?
    ensures var r := O.Overridden(t, O.Acts([O.Entry(KeyFor(s).value, v)]));
            Look(r, other) == if other == s then Some(ValueOf(s, v)) else Look(t, other)
  {
    KeySlot(s);
    OneSets(t, O.Entry(KeyFor(s).value, v), O.ActOf, s, other);
  }

  lemma OneSets(t: Target, e: O.Entry, act: O.Entry -> O.Act, s: Setting, other: Setting)
    requires act(e) == O.Act(SlotFor(s), e.over)
    ensures Look(O.Overridden(t, Mapped([e], act)), other) == if other == s then Some(ValueOf(s, e.over)) else Look(t, other)
  {
    assert Mapped([e], act) == [] + [act(e)];
    O.OneMoreApplied(t, [], act(e));
    LookApply(t, SlotFor(s), e.over, other);
  }

  lemma KeySlot(s: Setting)
    requires KeyFor(s).Some?
    ensures O.SlotOf(KeyFor(s).value) == SlotFor(s)
  {
    O.KeysOfBuild();
    O.KeysOfCaching();
    O.KeysOfRun();
    forall n ensures O.SlotOf("args" + [O.DOT] + n) == O.Named(O.Args, n)
             ensures O.SlotOf("labels" + [O.DOT] + n) == O.Named(O.Labels, n)
             ensures O.SlotOf("contexts" + [O.DOT] + n) == O.Named(O.Contexts, n)
    {
      O.KeysOfEntries(n);
    }
    KeySlotBy(s, O.SlotOf);
  }

  lemma KeySlotBy(s: Setting, slotOf: string -> O.Slot)
    requires KeyFor(s).Some?
    requires slotOf("context") == O.Scalar(Context) && slotOf("dockerfile") == O.Scalar(Dockerfile) && slotOf("tags") == O.Replace(Tags)
    requires slotOf("target") == O.Scalar(Stage) && slotOf("call") == O.Scalar(Call) && slotOf("platform") == O.Replace(Platforms)
    requires slotOf("no-cache") == O.Scalar(NoCache) && slotOf("pull") == O.Scalar(Pull)
    requires slotOf("shm-size") == O.Scalar(ShmSize) && slotOf("network") == O.Scalar(NetworkMode)
    requires forall n :: slotOf("args" + [O.DOT] + n) == O.Named(O.Args, n)
    requires forall n :: slotOf("labels" + [O.DOT] + n) == O.Named(O.Labels, n)
    requires forall n :: slotOf("contexts" + [O.DOT] + n) == O.Named(O.Contexts, n)
    ensures slotOf(KeyFor(s).value) == SlotFor(s)
  {
  }

  /** The same targets, and the same overrides visited in another order, none of which disagree. */
  ghost predicate Reordered(c: Config, d: Config) {
    c.targets == d.targets &&
    forall n :: multiset(OverridesFor(c, n)) == multiset(OverridesFor(d, n)) && O.Harmonious(O.Acts(OverridesFor(d, n)))
  }

  lemma BuildAnyOrder(c: Config, d: Config, own: Target, parents: Target)
    requires Reordered(c, d)
    ensures Build(c, own, parents) == Build(d, own, parents)
  {
    var es, fs := OverridesFor(c, own.name), OverridesFor(d, own.name);
    O.ValidAnyOrder(es, fs);
    MappedMultiset(es, fs, O.ActOf);
    O.AnyOrder(Merged(Merged(DefaultTarget(), parents), own), O.Acts(es), O.Acts(fs));
  }

  /** Two ways of putting targets together that agree. */
  ghost predicate Alike(mk: Builder, mk': Builder) {
    forall own, ts :: mk(own, ts) == mk'(own, ts)
  }

  lemma {:induction false} DefinedAlike(c: Config, mk: Builder, d: Config, mk': Builder, n: string, path: set<string>)
    requires c.targets == d.targets && Alike(mk, mk')
    ensures Defined(c, mk, n, path) == Defined(d, mk', n, path)
    decreases Names(c) - path, 0
  {
    var own := Find(c.targets, n);
    if own.Some? && n !in path {
      var ps := own.value.lists.inherits;
      DefinedAllAlike(c, mk, d, mk', ps, |ps|, path + {n});
    }
  }

  lemma {:induction false} DefinedAllAlike(c: Config, mk: Builder, d: Config, mk': Builder, ps: seq<string>, k: nat, path: set<string>)
    requires c.targets == d.targets && Alike(mk, mk') && k <= |ps|
    ensures DefinedAll(c, mk, ps, k, path) == DefinedAll(d, mk', ps, k, path)
    decreases Names(c) - path, 1, k
  {
    if k > 0 {
      DefinedAllAlike(c, mk, d, mk', ps, k - 1, path);
      DefinedAlike(c, mk, d, mk', ps[k - 1], path);
    }
  }

  /** Unless overrides disagree, definitions do not depend on the order in which they are visited. */
  lemma DefinedAnyOrder(c: Config, d: Config, n: string, path: set<string>)
    requires Reordered(c, d)
    ensures Defined(c, BuildOf(c), n, path) == Defined(d, BuildOf(d), n, path)
  {
    forall own, ts ensures BuildOf(c)(own, ts) == BuildOf(d)(own, ts) {
      BuildAnyOrder(c, d, own, MergeAll(ts));
    }
    DefinedAlike(c, BuildOf(c), d, BuildOf(d), n, path);
  }
}
