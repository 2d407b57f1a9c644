/**
 Flattening a group of targets. Groups may contain groups, and nothing stops a
 configuration from making them cyclic; the search remembers what it has seen
 and meets its own unfinished work through empty placeholders.
 */
module Groups {
  import opened Common
  import opened Graphs
  import opened Slices

  datatype Group = Group(name: string, targets: seq<string>)

  datatype Visit = Visit(target: seq<string>, group: seq<string>)

  /** The first group with this name. */
  function Find(gs: seq<Group>, name: string): Option<Group> {
    if gs == [] then None else if gs[0].name == name then Some(gs[0]) else Find(gs[1..], name)
  }

  lemma {:induction false} FindFirst(gs: seq<Group>, i: nat)
    requires i < |gs| && forall j :: 0 <= j < i ==> gs[j].name != gs[i].name
    ensures Find(gs, gs[i].name) == Some(gs[i])
  {
    if i > 0 {
      FindFirst(gs[1..], i - 1);
    }
  }

  lemma {:induction false} FindFound(gs: seq<Group>, name: string)
    ensures Find(gs, name).Some? <==> name in Names(gs)
    ensures Find(gs, name).Some? ==> Find(gs, name).value in gs && Find(gs, name).value.name == name
  {
    if gs != [] && gs[0].name != name {
      FindFound(gs[1..], name);
      assert forall g :: g in gs <==> g == gs[0] || g in gs[1..];
    }
  }

  predicate IsGroup(gs: seq<Group>, name: string) {
    Find(gs, name).Some?
  }

  function Members(gs: seq<Group>, name: string): seq<string> {
    if IsGroup(gs, name) then Find(gs, name).value.targets else []
  }

  function Names(gs: seq<Group>): set<string> {
    set g | g in gs :: g.name
  }

  ghost function Edge(gs: seq<Group>): (string, string) -> bool {
    (a, b) => b in Members(gs, a)
  }

  /** The edges that lead from group to group. */
  ghost function GroupEdge(gs: seq<Group>): (string, string) -> bool {
    (a, b) => b in Members(gs, a) && IsGroup(gs, b)
  }

  /** A name that may be reported for `root`: reachable, and a group only if it is empty or on a cycle. */
  ghost predicate GoodTarget(gs: seq<Group>, root: string, t: string) {
    && Reaches(Edge(gs), root, t)
    && (IsGroup(gs, t) ==> Members(gs, t) == [] || OnCycle(Edge(gs), t))
  }

  ghost predicate GoodGroup(gs: seq<Group>, root: string, g: string) {
    IsGroup(gs, g) && Reaches(Edge(gs), root, g)
  }

  ghost predicate AllGood(gs: seq<Group>, root: string, targets: seq<string>, groups: seq<string>) {
    && (forall t :: t in targets ==> GoodTarget(gs, root, t))
    && (forall g :: g in groups ==> GoodGroup(gs, root, g))
  }

  /** What is good for a member is good for the group that holds it. */
  lemma GoodUp(gs: seq<Group>, p: string, c: string, targets: seq<string>, groups: seq<string>)
    requires Edge(gs)(p, c) && AllGood(gs, c, targets, groups)
    ensures AllGood(gs, p, targets, groups)
  {
    forall t | t in targets ensures GoodTarget(gs, p, t) {
      assert GoodTarget(gs, c, t);
      StepReaches(Edge(gs), p, c, t);
    }
    forall g | g in groups ensures GoodGroup(gs, p, g) {
      assert GoodGroup(gs, c, g);
      StepReaches(Edge(gs), p, c, g);
    }
  }

  lemma GoodConcat(gs: seq<Group>, p: string, t1: seq<string>, g1: seq<string>, t2: seq<string>, g2: seq<string>)
    requires AllGood(gs, p, t1, g1) && AllGood(gs, p, t2, g2)
    ensures AllGood(gs, p, t1 + t2, g1 + g2)
  {
  }

  /**
   What the search has to show for member `m` of a finished group: a plain name is
   reported, an empty group is reported, and any other group was finished before or
   is reported as the end of a cycle.
   */
  ghost predicate MemberDone(gs: seq<Group>, before: seq<string>, keys: set<string>, targets: seq<string>, m: string) {
    if IsGroup(gs, m) then
      && m in keys
      && (m in before || (m in targets && Members(gs, m) != []))
      && (Members(gs, m) == [] ==> m in targets)
    else
      m in targets
  }

  ghost predicate MembersDone(gs: seq<Group>, ms: seq<string>, n: nat, before: seq<string>, keys: set<string>, targets: seq<string>) {
    forall j :: 0 <= j < n && j < |ms| ==> MemberDone(gs, before, keys, targets, ms[j])
  }

  lemma MembersGrow(gs: seq<Group>, ms: seq<string>, n: nat, before: seq<string>, keys: set<string>, targets: seq<string>,
                    before': seq<string>, keys': set<string>, targets': seq<string>)
    requires MembersDone(gs, ms, n, before, keys, targets)
    requires before <= before' && keys <= keys' && targets <= targets'
    ensures MembersDone(gs, ms, n, before', keys', targets')
  {
    forall j | 0 <= j < n && j < |ms| ensures MemberDone(gs, before', keys', targets', ms[j]) {
      assert MemberDone(gs, before, keys, targets, ms[j]);
    }
  }

  /** The finished group at index `i` of the order is listed and all its members are done. */
  ghost predicate NodeDone(gs: seq<Group>, order: seq<string>, i: nat, keys: set<string>, targets: seq<string>, groups: seq<string>)
    requires i < |order|
  {
    order[i] in groups && MembersDone(gs, Members(gs, order[i]), |Members(gs, order[i])|, order[..i], keys, targets)
  }

  /** Everything finished from index `from` on has been collected. */
  ghost predicate Collected(gs: seq<Group>, order: seq<string>, from: nat, keys: set<string>, targets: seq<string>, groups: seq<string>) {
    forall i: nat :: from <= i < |order| ==> NodeDone(gs, order, i, keys, targets, groups)
  }

  lemma NodeGrow(gs: seq<Group>, order: seq<string>, i: nat, keys: set<string>, targets: seq<string>, groups: seq<string>,
                 order': seq<string>, keys': set<string>, targets': seq<string>, groups': seq<string>)
    requires i < |order| && NodeDone(gs, order, i, keys, targets, groups)
    requires order <= order' && keys <= keys' && (forall t :: t in targets ==> t in targets') && (forall g :: g in groups ==> g in groups')
    ensures NodeDone(gs, order', i, keys', targets', groups')
  {
    assert order'[..i] == order[..i];
    var ms := Members(gs, order[i]);
    forall j | 0 <= j < |ms| ensures MemberDone(gs, order[..i], keys', targets', ms[j]) {
      assert MemberDone(gs, order[..i], keys, targets, ms[j]);
    }
  }

  /** The collections of a first part and of a second part make up the whole. */
  lemma CollectedJoin(gs: seq<Group>, from: nat, order1: seq<string>, keys1: set<string>, t1: seq<string>, g1: seq<string>,
                      order2: seq<string>, keys2: set<string>, t2: seq<string>, g2: seq<string>, t: seq<string>, g: seq<string>)
    requires Collected(gs, order1, from, keys1, t1, g1) && Collected(gs, order2, |order1|, keys2, t2, g2)
    requires order1 <= order2 && keys1 <= keys2
    requires (forall x :: x in t1 || x in t2 ==> x in t) && (forall x :: x in g1 || x in g2 ==> x in g)
    ensures Collected(gs, order2, from, keys2, t, g)
  {
    forall i: nat | from <= i < |order2| ensures NodeDone(gs, order2, i, keys2, t, g) {
      if i < |order1| {
        assert NodeDone(gs, order1, i, keys1, t1, g1);
        NodeGrow(gs, order1, i, keys1, t1, g1, order2, keys2, t, g);
      } else {
        assert NodeDone(gs, order2, i, keys2, t2, g2);
        NodeGrow(gs, order2, i, keys2, t2, g2, order2, keys2, t, g);
      }
    }
  }

  lemma CollectedFinish(gs: seq<Group>, order: seq<string>, from: nat, keys: set<string>, targets: seq<string>, groups: seq<string>, x: string)
    requires Collected(gs, order, from, keys, targets, groups) && x in groups
    requires MembersDone(gs, Members(gs, x), |Members(gs, x)|, order, keys, targets)
    ensures Collected(gs, order + [x], from, keys, targets, groups)
  {
    var order' := order + [x];
    forall i: nat | from <= i < |order'| ensures NodeDone(gs, order', i, keys, targets, groups) {
      if i < |order| {
        assert NodeDone(gs, order, i, keys, targets, groups);
        NodeGrow(gs, order, i, keys, targets, groups, order', keys, targets, groups);
      } else {
        assert order'[..i] == order;
      }
    }
  }

  /** The stored result of a finished group. */
  ghost predicate Finished(gs: seq<Group>, visited: map<string, Visit>, x: string) {
    && x in visited && IsGroup(gs, x)
    && AllGood(gs, x, visited[x].target, visited[x].group)
    && (visited[x].target == [] <==> Members(gs, x) == [])
  }

  ghost predicate Unfinished(gs: seq<Group>, visited: map<string, Visit>, x: string) {
    x in visited && IsGroup(gs, x) && visited[x] == Visit([], [])
  }

  ghost predicate Inv(gs: seq<Group>, visited: map<string, Visit>, order: seq<string>, stack: seq<string>) {
    && Chain(Edge(gs), stack)
    && (forall x :: Met(visited, order, stack, x))
    && (forall x :: x in stack ==> Unfinished(gs, visited, x))
    && (forall x :: x in order ==> Finished(gs, visited, x))
  }

  /** What is remembered is finished or being worked on. */
  ghost predicate Met(visited: map<string, Visit>, order: seq<string>, stack: seq<string>, x: string) {
    x in visited <==> x in order || x in stack
  }

  lemma UnfinishedKept(gs: seq<Group>, visited: map<string, Visit>, x: string, v: Visit, y: string)
    requires Unfinished(gs, visited, y) && y != x
    ensures Unfinished(gs, visited[x := v], y)
  {
  }

  lemma FinishedKept(gs: seq<Group>, visited: map<string, Visit>, x: string, v: Visit, y: string)
    requires Finished(gs, visited, y) && y != x
    ensures Finished(gs, visited[x := v], y)
  {
    assert visited[x := v][y] == visited[y];
  }

  lemma InvPush(gs: seq<Group>, visited: map<string, Visit>, order: seq<string>, stack: seq<string>, x: string)
    requires Inv(gs, visited, order, stack) && IsGroup(gs, x) && x !in visited
    requires stack != [] ==> Edge(gs)(stack[|stack| - 1], x)
    ensures Inv(gs, visited[x := Visit([], [])], order, stack + [x])
  {
    var v := Visit([], []);
    assert Met(visited, order, stack, x);
    ChainPush(Edge(gs), stack, x);
    var visited', stack' := visited[x := v], stack + [x];
    forall y ensures Met(visited', order, stack', y) {
      assert Met(visited, order, stack, y);
    }
    forall y | y in order ensures Finished(gs, visited[x := v], y) {
      FinishedKept(gs, visited, x, v, y);
    }
    forall y | y in stack + [x] ensures Unfinished(gs, visited[x := v], y) {
      if y != x { UnfinishedKept(gs, visited, x, v, y); }
    }
  }

  lemma InvPop(gs: seq<Group>, visited: map<string, Visit>, order: seq<string>, stack: seq<string>, x: string, v: Visit)
    requires Inv(gs, visited, order, stack + [x]) && x !in stack
    requires AllGood(gs, x, v.target, v.group) && (v.target == [] <==> Members(gs, x) == [])
    ensures Inv(gs, visited[x := v], order + [x], stack)
  {
    ChainPop(Edge(gs), stack, x);
    var visited', order' := visited[x := v], order + [x];
    forall y ensures Met(visited', order', stack, y) {
      assert Met(visited, order, stack + [x], y);
    }
    assert Unfinished(gs, visited, (stack + [x])[|stack|]);
    forall y | y in stack ensures Unfinished(gs, visited[x := v], y) {
      assert y in stack + [x];
      UnfinishedKept(gs, visited, x, v, y);
    }
    forall y | y in order + [x] ensures Finished(gs, visited[x := v], y) {
      if y != x { FinishedKept(gs, visited, x, v, y); }
    }
  }

  /** What is remembered about a name is good, whether it is finished or not. */
  lemma Remembered(gs: seq<Group>, visited: map<string, Visit>, order: seq<string>, stack: seq<string>, x: string)
    requires Inv(gs, visited, order, stack) && x in visited
    ensures IsGroup(gs, x) && (x in order || x in stack) && AllGood(gs, x, visited[x].target, visited[x].group)
    ensures visited[x].target == [] <==> Members(gs, x) == [] || x in stack
  {
    if x in stack {
      assert Unfinished(gs, visited, x);
    } else {
      assert Met(visited, order, stack, x);
      assert Finished(gs, visited, x);
    }
  }

  lemma LeafGood(gs: seq<Group>, x: string)
    requires !IsGroup(gs, x)
    ensures AllGood(gs, x, [x], [])
  {
    ReachesSelf(Edge(gs), x);
  }

  /** A member that came back empty is an empty group or closes a cycle; either way it may be reported. */
  lemma EmptyHanded(gs: seq<Group>, stack: seq<string>, t: string)
    requires Chain(Edge(gs), stack) && stack != [] && Edge(gs)(stack[|stack| - 1], t) && IsGroup(gs, t)
    requires Members(gs, t) == [] || t in stack
    ensures AllGood(gs, stack[|stack| - 1], [t], [])
    ensures t in stack ==> Members(gs, t) != []
  {
    var p := stack[|stack| - 1];
    ReachesSelf(Edge(gs), t);
    StepReaches(Edge(gs), p, t, t);
    if t in stack {
      var i :| 0 <= i < |stack| && stack[i] == t;
      ChainClosesCycle(Edge(gs), stack, i);
      var b :| Edge(gs)(t, b);
    }
  }

  /** What one more member contributes to its group. */
  lemma MemberStep(gs: seq<Group>, stack: seq<string>, p: string, ms: seq<string>, i: nat, order: seq<string>, keys: set<string>,
                   targets: seq<string>, groups: seq<string>, order': seq<string>, keys': set<string>, tt: seq<string>, tg: seq<string>)
    requires Chain(Edge(gs), stack + [p]) && ms == Members(gs, p) && i < |ms|
    requires order <= order' && keys <= keys'
    requires AllGood(gs, p, targets, groups) && AllGood(gs, ms[i], tt, tg)
    requires MembersDone(gs, ms, i, order, keys, targets)
    requires !IsGroup(gs, ms[i]) ==> tt == [ms[i]]
    requires IsGroup(gs, ms[i]) ==> ms[i] in keys' && (ms[i] in order' || ms[i] in stack + [p])
    requires IsGroup(gs, ms[i]) ==> (tt == [] <==> Members(gs, ms[i]) == [] || ms[i] in stack + [p])
    ensures var added := if |tt| > 0 then tt else [ms[i]];
            AllGood(gs, p, targets + added, groups + tg) && MembersDone(gs, ms, i + 1, order', keys', targets + added)
  {
    var t := ms[i];
    var added := if |tt| > 0 then tt else [t];
    assert t in ms && Edge(gs)(p, t);
    GoodUp(gs, p, t, tt, tg);
    if tt == [] {
      EmptyHanded(gs, stack + [p], t);
    }
    GoodConcat(gs, p, targets, groups, added, tg);
    MembersGrow(gs, ms, i, order, keys, targets, order', keys', targets + added);
    assert MemberDone(gs, order', keys', targets + added, t) by {
      if IsGroup(gs, t) && tt == [] {
        assert (targets + added)[|targets|] == t;
        if t in stack + [p] { EmptyHanded(gs, stack + [p], t); }
      } else if !IsGroup(gs, t) {
        assert (targets + added)[|targets|] == t;
      }
    }
  }

  // What a name stands for, without memory and placeholders.

  /** The targets behind a name and the groups above them, in the order of a search that goes down into every member. */
  ghost function Flat(gs: seq<Group>, n: string, path: set<string>): Visit
    decreases Names(gs) - path, 0
  {
    if !IsGroup(gs, n) then Visit([n], [])
    else if n in path then Visit([], [])
    else
      FindFound(gs, n);
      FlatMembers(gs, n, |Members(gs, n)|, path + {n})
  }

  /** The same for the first `k` members of a group. */
  ghost function FlatMembers(gs: seq<Group>, n: string, k: nat, path: set<string>): Visit
    requires k <= |Members(gs, n)|
    decreases Names(gs) - path, 1, k
  {
    if k == 0 then Visit([], [n])
    else
      var before, x := FlatMembers(gs, n, k - 1, path), Members(gs, n)[k - 1];
      var more := Flat(gs, x, path);
      Visit(before.target + (if more.target == [] then [x] else more.target), before.group + more.group)
  }

  ghost predicate Avoids(gs: seq<Group>, n: string, path: set<string>) {
    forall x :: x in path ==> !Reaches(Edge(gs), n, x)
  }

  lemma AcyclicDown(gs: seq<Group>, n: string, m: string)
    requires !ReachesCycle(gs, n) && Edge(gs)(n, m)
    ensures !ReachesCycle(gs, m) && !Reaches(Edge(gs), m, n)
  {
    if ReachesCycle(gs, m) {
      var x :| Reaches(Edge(gs), m, x) && OnCycle(Edge(gs), x);
      StepReaches(Edge(gs), n, m, x);
      assert false;
    }
    ReachesSelf(Edge(gs), n);
    assert Reaches(Edge(gs), n, n) ==> !OnCycle(Edge(gs), n);
  }

  lemma AvoidsDown(gs: seq<Group>, n: string, m: string, path: set<string>)
    requires !ReachesCycle(gs, n) && Edge(gs)(n, m) && Avoids(gs, n, path)
    ensures Avoids(gs, m, path + {n})
  {
    AcyclicDown(gs, n, m);
    forall x | x in path + {n} ensures !Reaches(Edge(gs), m, x) {
      if x != n && Reaches(Edge(gs), m, x) {
        StepReaches(Edge(gs), n, m, x);
        assert false;
      }
    }
  }

  /** Without cycles it does not matter how a name was reached. */
  lemma {:induction false} PathDoesNotMatter(gs: seq<Group>, n: string, path1: set<string>, path2: set<string>)
    requires !ReachesCycle(gs, n) && Avoids(gs, n, path1) && Avoids(gs, n, path2)
    ensures Flat(gs, n, path1) == Flat(gs, n, path2)
    decreases Names(gs) - path1, 0
  {
    ReachesSelf(Edge(gs), n);
    assert n !in path1 && n !in path2;
    if IsGroup(gs, n) {
      FindFound(gs, n);
      PathDoesNotMatterMembers(gs, n, |Members(gs, n)|, path1, path2);
    }
  }

  lemma {:induction false} PathDoesNotMatterMembers(gs: seq<Group>, n: string, k: nat, path1: set<string>, path2: set<string>)
    requires !ReachesCycle(gs, n) && Avoids(gs, n, path1) && Avoids(gs, n, path2)
    requires k <= |Members(gs, n)| && n !in path1
    ensures FlatMembers(gs, n, k, path1 + {n}) == FlatMembers(gs, n, k, path2 + {n})
    decreases Names(gs) - (path1 + {n}), 1, k
  {
    if k > 0 {
      var m := Members(gs, n)[k - 1];
      assert Edge(gs)(n, m);
      PathDoesNotMatterMembers(gs, n, k - 1, path1, path2);
      AcyclicDown(gs, n, m);
      AvoidsDown(gs, n, m, path1);
      AvoidsDown(gs, n, m, path2);
      PathDoesNotMatter(gs, m, path1 + {n}, path2 + {n});
    }
  }

  // The search with its memory, as a function.

  /** What the search remembers, and the groups it has finished, in order. */
  datatype Memory = Memory(visited: map<string, Visit>, order: seq<string>)

  datatype Walked = Walked(mem: Memory, found: Visit)

  ghost function Walk(gs: seq<Group>, m: Memory, name: string): (r: Walked)
    ensures m.visited.Keys <= r.mem.visited.Keys
    decreases Names(gs) - m.visited.Keys, 1, 0
  {
    if name in m.visited then Walked(m, m.visited[name])
    else if !IsGroup(gs, name) then Walked(m, Visit([name], []))
    else
      FindFound(gs, name);
      assert name in Names(gs) - m.visited.Keys && name !in Names(gs) - Start(m, name).visited.Keys;
      Remember(WalkMembers(gs, Start(m, name), name, |Members(gs, name)|), name)
  }

  /** An empty placeholder stands for a group that is being worked on. */
  function Start(m: Memory, name: string): Memory {
    m.(visited := m.visited[name := Visit([], [])])
  }

  function Remember(r: Walked, name: string): Walked {
    Walked(Memory(r.mem.visited[name := r.found], r.mem.order + [name]), r.found)
  }

  /** The members that were listed before, with one more. */
  function Joined(v: Visit, m: string, w: Visit): Visit {
    Visit(v.target + (if w.target != [] then w.target else [m]), v.group + w.group)
  }

  /** The first `k` members of a group. */
  ghost function WalkMembers(gs: seq<Group>, m: Memory, name: string, k: nat): (r: Walked)
    requires k <= |Members(gs, name)|
    ensures m.visited.Keys <= r.mem.visited.Keys
    decreases Names(gs) - m.visited.Keys, 2, k
  {
    if k == 0 then Walked(m, Visit([], [name]))
    else
      var p := WalkMembers(gs, m, name, k - 1);
      var w := Walk(gs, p.mem, Members(gs, name)[k - 1]);
      Walked(w.mem, Joined(p.found, Members(gs, name)[k - 1], w.found))
  }

  ghost predicate Good(gs: seq<Group>, m: Memory, stack: seq<string>) {
    Inv(gs, m.visited, m.order, stack)
  }

  ghost predicate Grows(m: Memory, m': Memory) {
    m.order <= m'.order && m.visited.Keys <= m'.visited.Keys
  }

  lemma GrowsOn(a: Memory, b: Memory, c: Memory)
    requires Grows(a, b) && Grows(b, c)
    ensures Grows(a, c)
  {
  }

  /** What a search for `name` returns is good, and everything below the groups it finished is collected. */
  ghost predicate FoundWell(gs: seq<Group>, m: Memory, name: string, stack: seq<string>, r: Walked) {
    && Good(gs, r.mem, stack) && Grows(m, r.mem)
    && AllGood(gs, name, r.found.target, r.found.group)
    && Collected(gs, r.mem.order, |m.order|, r.mem.visited.Keys, r.found.target, r.found.group)
    && (!IsGroup(gs, name) ==> r.found.target == [name])
    && (IsGroup(gs, name) ==> name in r.mem.order || name in stack)
    && (IsGroup(gs, name) ==> (r.found.target == [] <==> Members(gs, name) == [] || name in stack))
  }

  ghost predicate ListedWell(gs: seq<Group>, m: Memory, name: string, k: nat, stack: seq<string>, r: Walked) {
    && Good(gs, r.mem, stack + [name]) && Grows(m, r.mem)
    && AllGood(gs, name, r.found.target, r.found.group) && (r.found.target == [] <==> k == 0) && name in r.found.group
    && Collected(gs, r.mem.order, |m.order|, r.mem.visited.Keys, r.found.target, r.found.group)
    && MembersDone(gs, Members(gs, name), k, r.mem.order, r.mem.visited.Keys, r.found.target)
  }

  /** The groups that the search has not met yet. */
  ghost function Unmet(gs: seq<Group>, m: Memory): set<string> {
    Names(gs) - m.visited.Keys
  }

  lemma NoMoreUnmet(gs: seq<Group>, m: Memory, m': Memory)
    requires m.visited.Keys <= m'.visited.Keys
    ensures Unmet(gs, m') <= Unmet(gs, m)
  {
  }

  lemma LessUnmet(gs: seq<Group>, m: Memory, name: string)
    requires IsGroup(gs, name) && name !in m.visited
    ensures Unmet(gs, Start(m, name)) < Unmet(gs, m)
  {
    FindFound(gs, name);
    assert name in Unmet(gs, m) && name !in Unmet(gs, Start(m, name));
  }

  // Results of the search, named so that proofs do not unroll it.

  ghost predicate Gives(gs: seq<Group>, m: Memory, name: string, r: Walked) {
    forall n :: n == name ==> Walk(gs, m, n) == r
  }

  ghost predicate MembersGive(gs: seq<Group>, m: Memory, name: string, k: nat, r: Walked) {
    forall j: nat :: j == k && j <= |Members(gs, name)| ==> WalkMembers(gs, m, name, j) == r
  }

  lemma GivesLeaf(gs: seq<Group>, m: Memory, name: string, r: Walked)
    requires Gives(gs, m, name, r)
    ensures name in m.visited ==> r == Walked(m, m.visited[name])
    ensures name !in m.visited && !IsGroup(gs, name) ==> r == Walked(m, Visit([name], []))
  {
    assert Walk(gs, m, name) == r;
  }

  lemma GivesGroup(gs: seq<Group>, m: Memory, name: string, r: Walked) returns (q: Walked)
    requires Gives(gs, m, name, r) && name !in m.visited && IsGroup(gs, name)
    ensures MembersGive(gs, Start(m, name), name, |Members(gs, name)|, q) && r == Remember(q, name)
    ensures Unmet(gs, Start(m, name)) < Unmet(gs, m)
  {
    q := WalkMembers(gs, Start(m, name), name, |Members(gs, name)|);
    assert Walk(gs, m, name) == r;
    LessUnmet(gs, m, name);
  }

  lemma MembersGiveNone(gs: seq<Group>, m: Memory, name: string, r: Walked)
    requires MembersGive(gs, m, name, 0, r)
    ensures r == Walked(m, Visit([], [name]))
  {
    assert WalkMembers(gs, m, name, 0) == r;
  }

  lemma MembersGiveNext(gs: seq<Group>, m: Memory, name: string, k: nat, r: Walked) returns (p: Walked, w: Walked)
    requires k < |Members(gs, name)| && MembersGive(gs, m, name, k + 1, r)
    ensures MembersGive(gs, m, name, k, p) && Unmet(gs, p.mem) <= Unmet(gs, m)
    ensures Gives(gs, p.mem, Members(gs, name)[k], w) && r == Walked(w.mem, Joined(p.found, Members(gs, name)[k], w.found))
  {
    p := WalkMembers(gs, m, name, k);
    w := Walk(gs, p.mem, Members(gs, name)[k]);
    assert WalkMembers(gs, m, name, k + 1) == r;
    NoMoreUnmet(gs, m, p.mem);
  }

  /** The search for a name, whatever it has met before and is working on. */
  lemma {:induction false} WalkWell(gs: seq<Group>, m: Memory, name: string, stack: seq<string>, r: Walked)
    requires Gives(gs, m, name, r)
    requires Good(gs, m, stack) && (stack != [] ==> Edge(gs)(stack[|stack| - 1], name))
    ensures FoundWell(gs, m, name, stack, r)
    decreases Unmet(gs, m), 1, 0
  {
    GivesLeaf(gs, m, name, r);
    if name in m.visited {
      Remembered(gs, m.visited, m.order, stack, name);
    } else if !IsGroup(gs, name) {
      LeafGood(gs, name);
    } else {
      var q := GivesGroup(gs, m, name, r);
      InvPush(gs, m.visited, m.order, stack, name);
      MembersWell(gs, Start(m, name), name, |Members(gs, name)|, stack, q);
      FinishWell(gs, m, name, stack, q);
    }
  }

  lemma AllFinished(gs: seq<Group>, m: Memory)
    requires Good(gs, m, [])
    ensures m.visited.Keys == Elems(m.order)
  {
    forall x ensures x in m.visited.Keys <==> x in Elems(m.order) {
      assert Met(m.visited, m.order, [], x);
    }
  }

  lemma FinishWell(gs: seq<Group>, m: Memory, name: string, stack: seq<string>, r: Walked)
    requires name !in m.visited && name !in stack && IsGroup(gs, name) && ListedWell(gs, Start(m, name), name, |Members(gs, name)|, stack, r)
    ensures FoundWell(gs, m, name, stack, Remember(r, name))
  {
    InvPop(gs, r.mem.visited, r.mem.order, stack, name, r.found);
    CollectedFinish(gs, r.mem.order, |m.order|, r.mem.visited.Keys, r.found.target, r.found.group, name);
    assert r.mem.visited[name := r.found].Keys == r.mem.visited.Keys;
    assert (r.mem.order + [name])[|r.mem.order|] == name;
  }

  lemma {:induction false} MembersWell(gs: seq<Group>, m: Memory, name: string, k: nat, stack: seq<string>, r: Walked)
    requires MembersGive(gs, m, name, k, r)
    requires Good(gs, m, stack + [name]) && IsGroup(gs, name) && k <= |Members(gs, name)|
    ensures ListedWell(gs, m, name, k, stack, r)
    decreases Unmet(gs, m), 2, k
  {
    if k == 0 {
      MembersGiveNone(gs, m, name, r);
      ReachesSelf(Edge(gs), name);
    } else {
      var p, w := MembersGiveNext(gs, m, name, k - 1, r);
      MembersWell(gs, m, name, k - 1, stack, p);
      OneMoreWell(gs, m, name, k, stack, p, w, r);
    }
  }

  lemma {:induction false} OneMoreWell(gs: seq<Group>, m: Memory, name: string, k: nat, stack: seq<string>, p: Walked, w: Walked, r: Walked)
    requires 0 < k <= |Members(gs, name)| && ListedWell(gs, m, name, k - 1, stack, p) && Gives(gs, p.mem, Members(gs, name)[k - 1], w)
    requires r == Walked(w.mem, Joined(p.found, Members(gs, name)[k - 1], w.found))
    ensures ListedWell(gs, m, name, k, stack, r)
    decreases Unmet(gs, p.mem), 1, 1
  {
    assert Edge(gs)(name, Members(gs, name)[k - 1]);
    WalkWell(gs, p.mem, Members(gs, name)[k - 1], stack + [name], w);
    NextWell(gs, m, name, k - 1, stack, p, w);
  }

  lemma NextWell(gs: seq<Group>, m: Memory, name: string, k: nat, stack: seq<string>, p: Walked, w: Walked)
    requires k < |Members(gs, name)| && ListedWell(gs, m, name, k, stack, p) && FoundWell(gs, p.mem, Members(gs, name)[k], stack + [name], w)
    ensures ListedWell(gs, m, name, k + 1, stack, Walked(w.mem, Joined(p.found, Members(gs, name)[k], w.found)))
  {
    var ms := Members(gs, name);
    var f := Joined(p.found, ms[k], w.found);
    MemberStep(gs, stack, name, ms, k, p.mem.order, p.mem.visited.Keys, p.found.target, p.found.group,
               w.mem.order, w.mem.visited.Keys, w.found.target, w.found.group);
    CollectedJoin(gs, |m.order|, p.mem.order, p.mem.visited.Keys, p.found.target, p.found.group,
                  w.mem.order, w.mem.visited.Keys, w.found.target, w.found.group, f.target, f.group);
    GrowsOn(m, p.mem, w.mem);
  }

  /** `v` is what `n` stands for. */
  ghost predicate Means(gs: seq<Group>, n: string, v: Visit) {
    forall path :: path == {} ==> Flat(gs, n, path) == v
  }

  /** `v` is what the first `k` members of `n` stand for. */
  ghost predicate MembersMean(gs: seq<Group>, n: string, k: nat, v: Visit) {
    forall path :: path == {n} && k <= |Members(gs, n)| ==> FlatMembers(gs, n, k, path) == v
  }

  lemma MeansLeaf(gs: seq<Group>, n: string)
    requires !IsGroup(gs, n)
    ensures Means(gs, n, Visit([n], []))
  {
  }

  lemma MeansGroup(gs: seq<Group>, n: string, v: Visit)
    requires IsGroup(gs, n) && MembersMean(gs, n, |Members(gs, n)|, v)
    ensures Means(gs, n, v)
  {
    assert {} + {n} == {n};
    assert FlatMembers(gs, n, |Members(gs, n)|, {n}) == v;
  }

  lemma MembersMeanNone(gs: seq<Group>, n: string)
    ensures MembersMean(gs, n, 0, Visit([], [n]))
  {
  }

  lemma MembersMeanNext(gs: seq<Group>, n: string, k: nat, v: Visit, w: Visit)
    requires !ReachesCycle(gs, n) && k < |Members(gs, n)| && MembersMean(gs, n, k, v) && Means(gs, Members(gs, n)[k], w)
    ensures MembersMean(gs, n, k + 1, Joined(v, Members(gs, n)[k], w))
  {
    var x := Members(gs, n)[k];
    assert Edge(gs)(n, x);
    AcyclicDown(gs, n, x);
    PathDoesNotMatter(gs, x, {n}, {});
    assert FlatMembers(gs, n, k, {n}) == v && Flat(gs, x, {}) == w;
  }

  /** Every finished group is remembered as what it stands for. */
  ghost predicate RememberedFlat(gs: seq<Group>, m: Memory) {
    forall x :: x in m.order ==> x in m.visited && Means(gs, x, m.visited[x])
  }

  lemma StartFlat(gs: seq<Group>, m: Memory, name: string)
    requires RememberedFlat(gs, m) && name !in m.visited
    ensures RememberedFlat(gs, Start(m, name))
  {
  }

  lemma FinishFlat(gs: seq<Group>, r: Walked, name: string)
    requires RememberedFlat(gs, r.mem) && Means(gs, name, r.found)
    ensures RememberedFlat(gs, Remember(r, name).mem)
  {
  }

  /** Without cycles the search never meets a group it is working on. */
  lemma NeverUnfinished(gs: seq<Group>, stack: seq<string>, n: string)
    requires !ReachesCycle(gs, n) && Chain(Edge(gs), stack) && (stack != [] ==> Edge(gs)(stack[|stack| - 1], n))
    ensures n !in stack
  {
    if n in stack {
      var i :| 0 <= i < |stack| && stack[i] == n;
      ChainClosesCycle(Edge(gs), stack, i);
      ReachesSelf(Edge(gs), n);
      assert false;
    }
  }

  /** Without cycles the search with memory finds what the search without it finds, in the same order. */
  lemma {:induction false} WalkIsFlat(gs: seq<Group>, m: Memory, name: string, stack: seq<string>, r: Walked)
    requires Gives(gs, m, name, r)
    requires Good(gs, m, stack) && (stack != [] ==> Edge(gs)(stack[|stack| - 1], name))
    requires !ReachesCycle(gs, name) && RememberedFlat(gs, m)
    ensures Means(gs, name, r.found) && RememberedFlat(gs, r.mem)
    decreases Unmet(gs, m), 1, 0
  {
    GivesLeaf(gs, m, name, r);
    if name in m.visited {
      NeverUnfinished(gs, stack, name);
      Remembered(gs, m.visited, m.order, stack, name);
    } else if !IsGroup(gs, name) {
      MeansLeaf(gs, name);
    } else {
      var q := GivesGroup(gs, m, name, r);
      InvPush(gs, m.visited, m.order, stack, name);
      StartFlat(gs, m, name);
      MembersAreFlat(gs, Start(m, name), name, |Members(gs, name)|, stack, q);
      MeansGroup(gs, name, q.found);
      FinishFlat(gs, q, name);
    }
  }

  lemma {:induction false} MembersAreFlat(gs: seq<Group>, m: Memory, name: string, k: nat, stack: seq<string>, r: Walked)
    requires MembersGive(gs, m, name, k, r)
    requires Good(gs, m, stack + [name]) && IsGroup(gs, name) && k <= |Members(gs, name)|
    requires !ReachesCycle(gs, name) && RememberedFlat(gs, m)
    ensures MembersMean(gs, name, k, r.found) && RememberedFlat(gs, r.mem)
    decreases Unmet(gs, m), 2, k
  {
    if k == 0 {
      MembersGiveNone(gs, m, name, r);
      MembersMeanNone(gs, name);
    } else {
      var p, w := MembersGiveNext(gs, m, name, k - 1, r);
      MembersAreFlat(gs, m, name, k - 1, stack, p);
      MembersWell(gs, m, name, k - 1, stack, p);
      NextIsFlat(gs, m, name, k, stack, p, w, r);
    }
  }

  lemma {:induction false} NextIsFlat(gs: seq<Group>, m: Memory, name: string, k: nat, stack: seq<string>, p: Walked, w: Walked, r: Walked)
    requires 0 < k <= |Members(gs, name)| && ListedWell(gs, m, name, k - 1, stack, p) && Gives(gs, p.mem, Members(gs, name)[k - 1], w)
    requires r == Walked(w.mem, Joined(p.found, Members(gs, name)[k - 1], w.found))
    requires !ReachesCycle(gs, name) && RememberedFlat(gs, p.mem) && MembersMean(gs, name, k - 1, p.found)
    ensures MembersMean(gs, name, k, r.found) && RememberedFlat(gs, r.mem)
    decreases Unmet(gs, p.mem), 1, 1
  {
    var x := Members(gs, name)[k - 1];
    assert Edge(gs)(name, x);
    AcyclicDown(gs, name, x);
    WalkIsFlat(gs, p.mem, x, stack + [name], w);
    MembersMeanNext(gs, name, k - 1, p.found, w.found);
  }

  class GroupWalk {
    const gs: seq<Group>
    var visited: map<string, Visit>

    /** The groups that are finished, in order. */
    ghost var order: seq<string>

    constructor (gs: seq<Group>)
      ensures this.gs == gs && visited == map[] && order == []
    {
      this.gs := gs;
      visited := map[];
      order := [];
    }

    ghost function Mem(): Memory
      reads this
    {
      Memory(visited, order)
    }

    /** Lists what `name` stands for, and the groups met on the way. */
    method Expand(name: string) returns (targets: seq<string>, groups: seq<string>)
      modifies this
      ensures Walked(Mem(), Visit(targets, groups)) == Walk(gs, old(Mem()), name)
      decreases Names(gs) - visited.Keys, 1
    {
      if name in visited {
        return visited[name].target, visited[name].group;
      }
      var g := Find(gs, name);
      if g.None? {
        return [name], [];
      }
      FindFound(gs, name);
      assert name in Names(gs) - visited.Keys;
      visited := visited[name := Visit([], [])];
      assert name !in Names(gs) - visited.Keys;
      targets, groups := ExpandMembers(name, g.value.targets);
      visited := visited[name := Visit(targets, groups)];
      order := order + [name];
    }

    method ExpandMembers(name: string, ms: seq<string>) returns (targets: seq<string>, groups: seq<string>)
      requires ms == Members(gs, name)
      modifies this
      ensures Walked(Mem(), Visit(targets, groups)) == WalkMembers(gs, old(Mem()), name, |ms|)
      decreases Names(gs) - visited.Keys, 2
    {
      targets, groups := [], [name];
      for i := 0 to |ms|
        invariant Walked(Mem(), Visit(targets, groups)) == WalkMembers(gs, old(Mem()), name, i)
      {
        var tt, tg := Expand(ms[i]);
        if |tt| > 0 {
          targets := targets + tt;
        } else {
          targets := targets + [ms[i]];
        }
        groups := groups + tg;
      }
    }
  }

  /** From an empty start, everything reachable has been collected. */
  lemma RootComplete(gs: seq<Group>, name: string, order: seq<string>, targets: seq<string>, groups: seq<string>, x: string)
    requires Collected(gs, order, 0, Elems(order), targets, groups)
    requires if IsGroup(gs, name) then name in order else targets == [name]
    requires Reaches(Edge(gs), name, x)
    ensures if IsGroup(gs, x) then x in order && x in groups else x in targets
  {
    var s := iset y | if IsGroup(gs, y) then y in order else y in targets;
    forall a, b | a in s && Edge(gs)(a, b) ensures b in s {
      CollectedMember(gs, order, targets, groups, a, b);
    }
    var p :| PathFromTo(Edge(gs), p, name, x);
    ClosedReach(Edge(gs), s, p);
    if IsGroup(gs, x) {
      var i :| 0 <= i < |order| && order[i] == x;
      assert NodeDone(gs, order, i, Elems(order), targets, groups);
    }
  }

  lemma CollectedMember(gs: seq<Group>, order: seq<string>, targets: seq<string>, groups: seq<string>, a: string, b: string)
    requires Collected(gs, order, 0, Elems(order), targets, groups)
    requires a in order && Edge(gs)(a, b)
    ensures exists i :: 0 <= i < |order| && order[i] == a && MemberDone(gs, order[..i], Elems(order), targets, b)
    ensures if IsGroup(gs, b) then b in order && (Members(gs, b) == [] ==> b in targets) else b in targets
  {
    var i :| 0 <= i < |order| && order[i] == a;
    assert NodeDone(gs, order, i, Elems(order), targets, groups);
    var ms := Members(gs, a);
    var j :| 0 <= j < |ms| && ms[j] == b;
    assert MemberDone(gs, order[..i], Elems(order), targets, ms[j]);
  }

  /** A cycle through members is a cycle through groups. */
  lemma CycleOfGroups(gs: seq<Group>, g: string)
    requires OnCycle(Edge(gs), g)
    ensures IsGroup(gs, g) && OnCycle(GroupEdge(gs), g)
  {
    var b :| Edge(gs)(g, b) && Reaches(Edge(gs), b, g);
    var p :| PathFromTo(Edge(gs), p, b, g);
    forall i | 0 <= i < |p| ensures IsGroup(gs, p[i]) {
      if i < |p| - 1 { assert Edge(gs)(p[i], p[i + 1]); }
    }
    forall i | 0 <= i < |p| - 1 ensures GroupEdge(gs)(p[i], p[i + 1]) {
      assert Edge(gs)(p[i], p[i + 1]);
    }
    assert PathFromTo(GroupEdge(gs), p, b, g);
    assert GroupEdge(gs)(g, b) && Reaches(GroupEdge(gs), b, g);
  }

  /** If only empty groups were reported, the finishing order has all member groups first. */
  lemma NoReportMeansOrdered(gs: seq<Group>, order: seq<string>, targets: seq<string>, groups: seq<string>)
    requires Collected(gs, order, 0, Elems(order), targets, groups)
    requires forall t :: t in targets && IsGroup(gs, t) ==> Members(gs, t) == []
    ensures Ordered(GroupEdge(gs), order)
  {
    forall i, b | 0 <= i < |order| && GroupEdge(gs)(order[i], b) ensures b in order[..i] {
      assert NodeDone(gs, order, i, Elems(order), targets, groups);
      var ms := Members(gs, order[i]);
      var j :| 0 <= j < |ms| && ms[j] == b;
      assert MemberDone(gs, order[..i], Elems(order), targets, ms[j]);
    }
  }

  /** A non-empty group is among the targets. */
  ghost predicate ReportsCycle(gs: seq<Group>, targets: seq<string>) {
    exists t :: t in targets && IsGroup(gs, t) && Members(gs, t) != []
  }

  ghost predicate ReachesCycle(gs: seq<Group>, name: string) {
    exists g :: Reaches(Edge(gs), name, g) && OnCycle(Edge(gs), g)
  }

  lemma CycleReported(gs: seq<Group>, name: string, order: seq<string>, targets: seq<string>, groups: seq<string>)
    requires Collected(gs, order, 0, Elems(order), targets, groups) && AllGood(gs, name, targets, groups)
    requires if IsGroup(gs, name) then name in order else targets == [name]
    ensures ReportsCycle(gs, targets) <==> ReachesCycle(gs, name)
  {
    if ReportsCycle(gs, targets) {
      var t :| t in targets && IsGroup(gs, t) && Members(gs, t) != [];
      assert GoodTarget(gs, name, t);
    } else if ReachesCycle(gs, name) {
      var g :| Reaches(Edge(gs), name, g) && OnCycle(Edge(gs), g);
      CycleOfGroups(gs, g);
      RootComplete(gs, name, order, targets, groups, g);
      NoReportMeansOrdered(gs, order, targets, groups);
      OrderedAcyclic(GroupEdge(gs), order, g);
    }
  }

  /** Everything ResolveGroup promises about `name`. */
  ghost predicate Resolved(gs: seq<Group>, name: string, targets: seq<string>, groups: seq<string>) {
    && (forall g :: g in groups <==> IsGroup(gs, g) && Reaches(Edge(gs), name, g))
    && (forall t :: !IsGroup(gs, t) ==> (t in targets <==> Reaches(Edge(gs), name, t)))
    && (forall t :: t in targets && IsGroup(gs, t) ==> GoodTarget(gs, name, t))
    && (forall t :: IsGroup(gs, t) && Members(gs, t) == [] && t != name && Reaches(Edge(gs), name, t) ==> t in targets)
    && (ReportsCycle(gs, targets) <==> ReachesCycle(gs, name))
  }

  lemma RootResolved(gs: seq<Group>, name: string, order: seq<string>, targets: seq<string>, groups: seq<string>)
    requires Collected(gs, order, 0, Elems(order), targets, groups) && AllGood(gs, name, targets, groups)
    requires if IsGroup(gs, name) then name in order else targets == [name]
    ensures Resolved(gs, name, targets, groups)
  {
    forall x | Reaches(Edge(gs), name, x)
      ensures if IsGroup(gs, x) then x in groups else x in targets
      ensures IsGroup(gs, x) && Members(gs, x) == [] && x != name ==> x in targets
    {
      RootComplete(gs, name, order, targets, groups, x);
      if IsGroup(gs, x) && x != name {
        ReachesSplitLast(Edge(gs), name, x);
        var y :| Reaches(Edge(gs), name, y) && Edge(gs)(y, x);
        RootComplete(gs, name, order, targets, groups, y);
        CollectedMember(gs, order, targets, groups, y, x);
      }
    }
    forall t | t in targets ensures GoodTarget(gs, name, t) {}
    forall g | g in groups ensures GoodGroup(gs, name, g) {}
    CycleReported(gs, name, order, targets, groups);
  }

  /** Resolves a name to targets and groups, each listed once; without cycles, in the order of the unmemoised search. */
  method ResolveGroup(gs: seq<Group>, name: string) returns (targets: seq<string>, groups: seq<string>)
    ensures Distinct(targets) && Distinct(groups)
    ensures Resolved(gs, name, targets, groups)
    ensures !ReachesCycle(gs, name) ==>
              targets == Firsts(Flat(gs, name, {}).target) && groups == Firsts(Flat(gs, name, {}).group)
  {
    var walk := new GroupWalk(gs);
    ghost var m := walk.Mem();
    assert Good(gs, m, []);
    var ts, grps := walk.Expand(name);
    ghost var r := Walk(gs, m, name);
    WalkWell(gs, m, name, [], r);
    if !ReachesCycle(gs, name) {
      WalkIsFlat(gs, m, name, [], r);
      assert Flat(gs, name, {}) == r.found;
    }
    AllFinished(gs, r.mem);
    RootResolved(gs, name, walk.order, ts, grps);
    targets := DedupSlice(ts);
    groups := DedupSlice(grps);
    FirstsElems(ts);
    FirstsElems(grps);
    SameElements(gs, name, ts, grps, targets, groups);
  }

  lemma SameElements(gs: seq<Group>, name: string, ts: seq<string>, grps: seq<string>, targets: seq<string>, groups: seq<string>)
    requires Resolved(gs, name, ts, grps)
    requires (forall x :: x in targets <==> x in ts) && (forall x :: x in groups <==> x in grps)
    ensures Resolved(gs, name, targets, groups)
  {
    assert ReportsCycle(gs, targets) <==> ReportsCycle(gs, ts);
  }
}
