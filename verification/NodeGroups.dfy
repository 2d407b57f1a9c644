/**
 A builder instance is a group of nodes. Update and Leave change the group in
 place; a platform is pinned to at most one node, and an endpoint is used by at
 most one.
 */
module NodeGroups {
  import opened Common
  import opened Texts

  /** Platforms are compared by their formatted name. */
  datatype Node = Node(name: string, endpoint: string, platforms: seq<string>, driverOpts: map<string, string>, flags: seq<string>)

  datatype Error = DynamicGroup | NotFound | LastNode | BadPlatform | BadName | DuplicateEndpoint

  /** The arguments of one Update call; unset slices and maps are None. */
  datatype Change = Change(name: string, endpoint: string, platforms: seq<string>, endpointsSet: bool, actionAppend: bool,
                           flags: Option<seq<string>>, driverOpts: Option<map<string, string>>)

  ghost predicate DistinctEndpoints(ns: seq<Node>) {
    forall i, j :: 0 <= i < j < |ns| ==> ns[i].endpoint != ns[j].endpoint
  }

  ghost predicate DistinctNames(ns: seq<Node>) {
    forall i, j :: 0 <= i < j < |ns| ==> ns[i].name != ns[j].name
  }

  ghost predicate DisjointPlatforms(ns: seq<Node>) {
    forall i, j, p :: 0 <= i < |ns| && 0 <= j < |ns| && i != j && p in ns[i].platforms ==> p !in ns[j].platforms
  }

  ghost predicate Inv(ns: seq<Node>) {
    DistinctEndpoints(ns) && DisjointPlatforms(ns)
  }

  /** The platforms that are not in `m`. */
  function Filter(ps: seq<string>, m: set<string>): (r: seq<string>)
    ensures forall p :: p in r <==> p in ps && p !in m
  {
    if ps == [] then []
    else
      assert forall p :: p in ps <==> p in ps[..|ps| - 1] || p == ps[|ps| - 1];
      Filter(ps[..|ps| - 1], m) + if ps[|ps| - 1] in m then [] else [ps[|ps| - 1]]
  }

  lemma FilterOneMore(ps: seq<string>, p: string, m: set<string>)
    ensures Filter(ps + [p], m) == Filter(ps, m) + if p in m then [] else [p]
  {
    assert (ps + [p])[..|ps|] == ps;
  }

  lemma FilterStep(a: seq<string>, b: seq<string>, p: string, m: set<string>)
    requires Filter(a + b, m) == Filter(a, m) + Filter(b, m)
    ensures Filter(a + (b + [p]), m) == Filter(a, m) + Filter(b + [p], m)
  {
    ConcatAssoc(a, b, [p]);
    FilterOneMore(a + b, p, m);
    FilterOneMore(b, p, m);
    ConcatAssoc(Filter(a, m), Filter(b, m), if p in m then [] else [p]);
  }

  /** What is left keeps its order and its repetitions. */
  lemma {:induction false} FilterConcat(a: seq<string>, b: seq<string>, m: set<string>)
    ensures Filter(a + b, m) == Filter(a, m) + Filter(b, m)
  {
    if b == [] {
      assert a + b == a;
    } else {
      var t, p := b[..|b| - 1], b[|b| - 1];
      FilterConcat(a, t, m);
      FilterStep(a, t, p, m);
      InitLast(b);
    }
  }

  lemma {:induction false} FilterNothing(ps: seq<string>, m: set<string>)
    requires forall i :: 0 <= i < |ps| ==> ps[i] !in m
    ensures Filter(ps, m) == ps
  {
    if ps != [] {
      FilterNothing(ps[..|ps| - 1], m);
      InitLast(ps);
    }
  }

  /** Node `idx` keeps its platforms and all others give them up. */
  function Pinned(ns: seq<Node>, idx: nat): (r: seq<Node>)
    requires idx < |ns|
    ensures |r| == |ns|
    ensures forall i :: 0 <= i < |ns| ==>
              r[i] == if i == idx then ns[i] else ns[i].(platforms := Filter(ns[i].platforms, Elems(ns[idx].platforms)))
  {
    seq(|ns|, i requires 0 <= i < |ns| =>
      if i == idx then ns[i] else ns[i].(platforms := Filter(ns[i].platforms, Elems(ns[idx].platforms))))
  }

  function CountEndpoint(ns: seq<Node>, ep: string): nat {
    if ns == [] then 0 else CountEndpoint(ns[..|ns| - 1], ep) + if ns[|ns| - 1].endpoint == ep then 1 else 0
  }

  /** An endpoint is counted at most once exactly when no two nodes have it. */
  lemma {:induction false} CountAtMostOnce(ns: seq<Node>, ep: string)
    ensures CountEndpoint(ns, ep) == 0 <==> forall i :: 0 <= i < |ns| ==> ns[i].endpoint != ep
    ensures CountEndpoint(ns, ep) <= 1 <==> forall i, j :: 0 <= i < j < |ns| && ns[i].endpoint == ep ==> ns[j].endpoint != ep
  {
    if ns != [] {
      var t := ns[..|ns| - 1];
      CountAtMostOnce(t, ep);
      assert forall i :: 0 <= i < |t| ==> ns[i] == t[i];
    }
  }

  /** Pinning a node's platforms leaves all nodes disjoint if the others were. */
  lemma PinnedDisjoint(ns: seq<Node>, idx: nat)
    requires idx < |ns|
    requires forall i, j, p :: 0 <= i < |ns| && 0 <= j < |ns| && i != j && i != idx && j != idx && p in ns[i].platforms ==> p !in ns[j].platforms
    ensures DisjointPlatforms(Pinned(ns, idx))
  {
    var r := Pinned(ns, idx);
    forall i, j, p | 0 <= i < |r| && 0 <= j < |r| && i != j && p in r[i].platforms ensures p !in r[j].platforms {
      if i == idx { assert p in Elems(ns[idx].platforms); }
    }
  }

  /** Index of the first node with this name, or -1. */
  function FindNode(ns: seq<Node>, name: string): (i: int)
    ensures -1 <= i < |ns|
    ensures i >= 0 ==> ns[i].name == name && forall j :: 0 <= j < i ==> ns[j].name != name
    ensures i == -1 ==> forall j :: 0 <= j < |ns| ==> ns[j].name != name
  {
    FindFrom(ns, name, 0)
  }

  function FindFrom(ns: seq<Node>, name: string, from: nat): (i: int)
    requires from <= |ns|
    ensures i == -1 || from <= i < |ns|
    ensures i >= 0 ==> ns[i].name == name && forall j :: from <= j < i ==> ns[j].name != name
    ensures i == -1 ==> forall j :: from <= j < |ns| ==> ns[j].name != name
    decreases |ns| - from
  {
    if from == |ns| then -1 else if ns[from].name == name then from else FindFrom(ns, name, from + 1)
  }

  function Digit(d: nat): char
    requires d < 10
  {
    ['0', '1', '2', '3', '4', '5', '6', '7', '8', '9'][d]
  }

  function Itoa(n: nat): string {
    if n < 10 then [Digit(n)] else Itoa(n / 10) + [Digit(n % 10)]
  }

  function DigitValue(c: char): int {
    c as int - '0' as int
  }

  /** The number that a text of digits stands for. */
  function Decimal(s: string): int {
    if s == "" then 0 else 10 * Decimal(s[..|s| - 1]) + DigitValue(s[|s| - 1])
  }

  /** A number is written as its decimal digits, without leading zeros. */
  lemma {:induction false} ItoaReads(n: nat)
    ensures var s := Itoa(n); Decimal(s) == n && s != "" && (s[0] == '0' ==> n == 0)
    ensures forall i :: 0 <= i < |Itoa(n)| ==> '0' <= Itoa(n)[i] <= '9'
  {
    var s, d := Itoa(n), Digit(n % 10);
    assert DigitValue(d) == n % 10 && '0' <= d <= '9';
    if n < 10 {
      assert Decimal(s[..0]) == 0;
    } else {
      ItoaReads(n / 10);
      assert s[..|s| - 1] == Itoa(n / 10);
    }
  }

  predicate Letter(c: char) {
    'a' <= c <= 'z' || 'A' <= c <= 'Z'
  }

  predicate ValidName(s: string) {
    s != "" && Letter(s[0]) && forall i :: 0 < i < |s| ==> Letter(s[i]) || '0' <= s[i] <= '9' || s[i] in "._-"
  }

  /** Names begin with a letter and go on with letters, digits, dots, underscores and hyphens. */
  lemma NameRules(s: string, c: char)
    ensures !ValidName("") && (ValidName([c]) <==> Letter(c))
    ensures s != "" ==> (ValidName(s + [c]) <==> ValidName(s) && (Letter(c) || '0' <= c <= '9' || c == '.' || c == '_' || c == '-'))
  {
    var t := s + [c];
    assert forall i :: 0 <= i < |s| ==> t[i] == s[i];
    assert t[|s|] == c;
  }

  function Candidate(group: string, i: nat): string {
    group + Itoa(i)
  }

  lemma CandidatesDiffer(group: string, i: nat, j: nat)
    requires Candidate(group, i) == Candidate(group, j)
    ensures i == j
  {
    assert Itoa(i) == Candidate(group, i)[|group|..] == Candidate(group, j)[|group|..] == Itoa(j);
    ItoaReads(i);
    ItoaReads(j);
  }

  predicate Used(ns: seq<Node>, name: string) {
    FindNode(ns, name) != -1
  }

  /** There are no more used candidate names than nodes. */
  lemma Pigeonhole(group: string, ns: seq<Node>, n: nat)
    requires forall j :: 0 <= j < n ==> Used(ns, Candidate(group, j))
    ensures n <= |ns|
  {
    var at := seq(n, j requires 0 <= j < n => FindNode(ns, Candidate(group, j)));
    forall i, j | 0 <= i < j < n ensures at[i] != at[j] {
      if at[i] == at[j] {
        CandidatesDiffer(group, i, j);
        assert false;
      }
    }
    DistinctCount(at);
    var all := seq(|ns|, i requires 0 <= i < |ns| => i);
    DistinctCount(all);
    forall i | i in Elems(at) ensures i in Elems(all) {
      assert all[i] == i;
    }
    SubsetCount(Elems(at), Elems(all));
  }

  /** The first unused candidate name from number `i` on; it is found after at most one try per node. */
  function NextFrom(group: string, ns: seq<Node>, i: nat): (name: string)
    requires forall j :: 0 <= j < i ==> Used(ns, Candidate(group, j))
    ensures !Used(ns, name)
    ensures exists k :: i <= k <= |ns| && name == Candidate(group, k) && forall j :: 0 <= j < k ==> Used(ns, Candidate(group, j))
    decreases |ns| - i
  {
    Pigeonhole(group, ns, i);
    if Used(ns, Candidate(group, i)) then
      Pigeonhole(group, ns, i + 1);
      NextFrom(group, ns, i + 1)
    else Candidate(group, i)
  }

  function Parse(parse: string -> Option<seq<string>>, ps: seq<string>): Option<seq<string>> {
    if ps == [] then Some([])
    else
      match (Parse(parse, ps[..|ps| - 1]), parse(ps[|ps| - 1]))
      case (Some(a), Some(b)) => Some(a + b)
      case _ => None
  }

  /** An existing node with the settings that were given. */
  function Changed(n: Node, c: Change, pp: seq<string>): Node {
    n.(endpoint := if c.endpointsSet then c.endpoint else n.endpoint,
       platforms := if |c.platforms| > 0 then pp else n.platforms,
       flags := if c.flags.Some? then c.flags.value else n.flags,
       driverOpts := if c.driverOpts.Some? then c.driverOpts.value else n.driverOpts)
  }

  function Created(name: string, c: Change, pp: seq<string>): Node {
    Node(ToLower(name), c.endpoint, pp,
         if c.driverOpts.Some? then c.driverOpts.value else map[], if c.flags.Some? then c.flags.value else [])
  }

  /** Either the endpoint is duplicate and the nodes stay as they are, or the platforms of `idx` are pinned. */
  function Validated(ns: seq<Node>, ep: string, idx: nat): (seq<Node>, Option<Error>)
    requires idx < |ns|
  {
    if CountEndpoint(ns, ep) > 1 then (ns, Some(DuplicateEndpoint)) else (Pinned(ns, idx), None)
  }

  datatype Group = Group(name: string, dynamic: bool, nodes: seq<Node>)

  /** The nodes after an Update, and its error. */
  function Updated(g: Group, parse: string -> Option<seq<string>>, c: Change): (seq<Node>, Option<Error>) {
    var ns := g.nodes;
    var i := FindNode(ns, c.name);
    if g.dynamic then (ns, Some(DynamicGroup))
    else if i == -1 && !c.actionAppend && |ns| > 0 then (ns, Some(NotFound))
    else
      match Parse(parse, c.platforms)
      case None => (ns, Some(BadPlatform))
      case Some(pp) =>
        if i != -1 then Validated(ns[i := Changed(ns[i], c, pp)], c.endpoint, i)
        else
          var name := if c.name == "" then NextFrom(g.name, ns, 0) else c.name;
          if !ValidName(name) then (ns, Some(BadName))
          else Validated(ns + [Created(name, c, pp)], c.endpoint, |ns|)
  }

  /** The nodes after a Leave, and its error. */
  function Left(g: Group, name: string): (seq<Node>, Option<Error>) {
    var i := FindNode(g.nodes, name);
    if g.dynamic then (g.nodes, Some(DynamicGroup))
    else if i == -1 then (g.nodes, Some(NotFound))
    else if |g.nodes| == 1 then (g.nodes, Some(LastNode))
    else (g.nodes[..i] + g.nodes[i + 1..], None)
  }

  /** `ns'` is `ns` with node `idx` changed, or added at the end. */
  ghost predicate OneChanged(ns: seq<Node>, ns': seq<Node>, idx: nat) {
    idx < |ns'| && (|ns'| == |ns| || (|ns'| == |ns| + 1 && idx == |ns|)) &&
    forall i :: 0 <= i < |ns'| && i != idx ==> ns'[i] == ns[i]
  }

  lemma OthersDisjoint(ns: seq<Node>, ns': seq<Node>, idx: nat)
    requires DisjointPlatforms(ns) && OneChanged(ns, ns', idx)
    ensures forall i, j, p :: 0 <= i < |ns'| && 0 <= j < |ns'| && i != j && i != idx && j != idx && p in ns'[i].platforms ==> p !in ns'[j].platforms
  {
    forall i, j, p | 0 <= i < |ns'| && 0 <= j < |ns'| && i != j && i != idx && j != idx && p in ns'[i].platforms
      ensures p !in ns'[j].platforms
    {
      assert ns'[i] == ns[i] && ns'[j] == ns[j];
    }
  }

  lemma PinnedEndpoints(ns: seq<Node>, idx: nat)
    requires idx < |ns|
    ensures DistinctEndpoints(Pinned(ns, idx)) <==> DistinctEndpoints(ns)
    ensures DistinctNames(Pinned(ns, idx)) <==> DistinctNames(ns)
  {
    var r := Pinned(ns, idx);
    assert forall i :: 0 <= i < |ns| ==> r[i].endpoint == ns[i].endpoint && r[i].name == ns[i].name;
  }

  /** Changing one node or adding one at the end, and then validating. */
  lemma ValidatedKeepsInv(ns: seq<Node>, ns': seq<Node>, ep: string, idx: nat)
    requires Inv(ns) && OneChanged(ns, ns', idx)
    requires ns'[idx].endpoint == ep || (idx < |ns| && ns'[idx].endpoint == ns[idx].endpoint)
    ensures Validated(ns', ep, idx).1.None? ==> Inv(Validated(ns', ep, idx).0)
    ensures Validated(ns', ep, idx).1.Some? ==> !DistinctEndpoints(ns')
  {
    CountAtMostOnce(ns', ep);
    if CountEndpoint(ns', ep) <= 1 {
      OthersDisjoint(ns, ns', idx);
      PinnedDisjoint(ns', idx);
      PinnedEndpoints(ns', idx);
      assert DistinctEndpoints(ns');
    }
  }

  /** Another node has the endpoint. */
  ghost predicate OtherHas(ns: seq<Node>, i: int, ep: string) {
    exists j :: 0 <= j < |ns| && j != i && ns[j].endpoint == ep
  }

  lemma SetKeepsInv(ns: seq<Node>, i: nat, n: Node, ep: string)
    requires Inv(ns) && i < |ns| && (n.endpoint == ep || n.endpoint == ns[i].endpoint)
    ensures Inv(Validated(ns[i := n], ep, i).0) <==> Validated(ns[i := n], ep, i).1.None?
    ensures Validated(ns[i := n], ep, i).1.Some? <==> n.endpoint == ep && OtherHas(ns, i, ep)
  {
    var ns' := ns[i := n];
    ValidatedKeepsInv(ns, ns', ep, i);
    CountAtMostOnce(ns', ep);
    assert forall j :: 0 <= j < |ns| && j != i ==> ns'[j] == ns[j];
    assert ns'[i] == n;
  }

  lemma AddKeepsInv(ns: seq<Node>, n: Node)
    requires Inv(ns)
    ensures Inv(Validated(ns + [n], n.endpoint, |ns|).0) <==> Validated(ns + [n], n.endpoint, |ns|).1.None?
    ensures Validated(ns + [n], n.endpoint, |ns|).1.Some? <==> OtherHas(ns, -1, n.endpoint)
  {
    var ns' := ns + [n];
    ValidatedKeepsInv(ns, ns', n.endpoint, |ns|);
    CountAtMostOnce(ns', n.endpoint);
    assert forall j :: 0 <= j < |ns| ==> ns'[j] == ns[j];
    assert ns'[|ns|] == n;
  }

  /** The name asked for, or the next free one. */
  function WantedName(g: Group, c: Change): string {
    if c.name == "" then NextFrom(g.name, g.nodes, 0) else c.name
  }

  /** The name a new node gets. */
  function NewName(g: Group, c: Change): string {
    ToLower(WantedName(g, c))
  }

  /** The update passes all tests but that of the endpoint. */
  predicate Admitted(g: Group, parse: string -> Option<seq<string>>, c: Change) {
    !g.dynamic && Parse(parse, c.platforms).Some? &&
    (Used(g.nodes, c.name) || ((c.actionAppend || g.nodes == []) && ValidName(WantedName(g, c))))
  }

  /** The update would give a node an endpoint that another one has. */
  ghost predicate EndpointTaken(g: Group, c: Change) {
    var i := FindNode(g.nodes, c.name);
    OtherHas(g.nodes, i, c.endpoint) && (i == -1 || c.endpointsSet || g.nodes[i].endpoint == c.endpoint)
  }

  /**
   An Update succeeds exactly when it is admitted and its endpoint is free. It breaks
   the invariant exactly when it is admitted and the endpoint is taken; any other
   error changes nothing.
   */
  lemma UpdateKeepsInv(g: Group, parse: string -> Option<seq<string>>, c: Change)
    requires Inv(g.nodes)
    ensures var (r, err) := Updated(g, parse, c);
            (err.None? <==> Admitted(g, parse, c) && !EndpointTaken(g, c)) &&
            (err == Some(DuplicateEndpoint) <==> Admitted(g, parse, c) && EndpointTaken(g, c)) &&
            (Inv(r) <==> !(Admitted(g, parse, c) && EndpointTaken(g, c))) &&
            (!Admitted(g, parse, c) ==> r == g.nodes)
  {
    var ns := g.nodes;
    var i := FindNode(ns, c.name);
    var pp := Parse(parse, c.platforms);
    if pp.Some? {
      if i != -1 {
        SetKeepsInv(ns, i, Changed(ns[i], c, pp.value), c.endpoint);
      } else {
        AddKeepsInv(ns, Created(WantedName(g, c), c, pp.value));
      }
    }
  }

  lemma DroppedKeepsInv(ns: seq<Node>, i: nat)
    requires Inv(ns) && i < |ns|
    ensures Inv(ns[..i] + ns[i + 1..])
  {
    var r := ns[..i] + ns[i + 1..];
    forall a, b | 0 <= a < |r| && 0 <= b < |r| && a != b
      ensures r[a].endpoint != r[b].endpoint && forall p :: p in r[a].platforms ==> p !in r[b].platforms
    {
      assert r[a] == ns[if a < i then a else a + 1] && r[b] == ns[if b < i then b else b + 1];
    }
  }

  /** Leaving keeps the invariant and never takes the last node. */
  lemma LeaveKeepsInv(g: Group, name: string)
    requires Inv(g.nodes)
    ensures Inv(Left(g, name).0) && (g.nodes != [] ==> Left(g, name).0 != [])
    ensures Left(g, name).1.Some? ==> Left(g, name).0 == g.nodes
  {
    var ns := g.nodes;
    var i := FindNode(ns, name);
    if !g.dynamic && i != -1 && |ns| != 1 {
      DroppedKeepsInv(ns, i);
      assert Left(g, name).0 == ns[..i] + ns[i + 1..];
    } else {
      assert Left(g, name).0 == ns;
    }
  }

  /** `r` is `ns` without its node `i`; all others keep their order. */
  ghost predicate Without(ns: seq<Node>, i: nat, r: seq<Node>) {
    i < |ns| && |r| == |ns| - 1 && forall j :: 0 <= j < |r| ==> r[j] == ns[if j < i then j else j + 1]
  }

  ghost predicate Named(ns: seq<Node>, name: string) {
    exists i :: 0 <= i < |ns| && ns[i].name == name
  }

  /**
   A node leaves exactly when the group is static, a node has the name and another is
   left. It is the first of that name, so with distinct names none is left of it.
   */
  lemma LeaveTakesOne(g: Group, name: string) returns (i: nat)
    ensures var ns := g.nodes; var (r, err) := Left(g, name);
            (err.None? <==> !g.dynamic && Named(ns, name) && |ns| >= 2) &&
            (err.None? ==> Without(ns, i, r) && ns[i].name == name && forall j :: 0 <= j < i ==> ns[j].name != name) &&
            (err.None? && DistinctNames(ns) ==> !Named(r, name)) &&
            (err == Some(DynamicGroup) <==> g.dynamic) && (err == Some(NotFound) <==> !g.dynamic && !Named(ns, name))
  {
    var ns := g.nodes;
    var k := FindNode(ns, name);
    NamedFound(ns, name);
    i := if k == -1 then 0 else k;
    if k != -1 {
      DroppedIs(ns, i);
      if DistinctNames(ns) { NoneLeft(ns, i, ns[..i] + ns[i + 1..]); }
    }
  }

  lemma NamedFound(ns: seq<Node>, name: string)
    ensures Named(ns, name) <==> FindNode(ns, name) != -1
  {
    var k := FindNode(ns, name);
    assert k != -1 ==> ns[k].name == name;
  }

  lemma DroppedIs(ns: seq<Node>, i: nat)
    requires i < |ns|
    ensures Without(ns, i, ns[..i] + ns[i + 1..])
  {
  }

  lemma NoneLeft(ns: seq<Node>, i: nat, r: seq<Node>)
    requires DistinctNames(ns) && Without(ns, i, r)
    ensures !Named(r, ns[i].name)
  {
    forall j | 0 <= j < |r| ensures r[j].name != ns[i].name {
      assert r[j] == ns[if j < i then j else j + 1];
    }
  }

  ghost function AllPlatforms(ns: seq<Node>): set<string> {
    set i, p | 0 <= i < |ns| && p in ns[i].platforms :: p
  }

  /** Pinning moves platforms to node `idx` and loses none of them. */
  lemma PinnedLosesNothing(ns: seq<Node>, idx: nat)
    requires idx < |ns|
    ensures AllPlatforms(Pinned(ns, idx)) == AllPlatforms(ns)
  {
    var r := Pinned(ns, idx);
    forall p | p in AllPlatforms(ns) ensures p in AllPlatforms(r) {
      var i :| 0 <= i < |ns| && p in ns[i].platforms;
      if p in ns[idx].platforms {
        assert p in r[idx].platforms;
      } else {
        assert p in r[i].platforms;
      }
    }
  }

  /** What an Update leaves of the node it found: each setting that was given, and the old one otherwise. */
  ghost predicate SetAsGiven(n: Node, c: Change, pp: Option<seq<string>>, r: Node) {
    && r.name == n.name
    && r.endpoint == (if c.endpointsSet then c.endpoint else n.endpoint)
    && (if c.platforms == [] then r.platforms == n.platforms else pp == Some(r.platforms))
    && (match c.flags case None => r.flags == n.flags case Some(f) => r.flags == f)
    && (match c.driverOpts case None => r.driverOpts == n.driverOpts case Some(d) => r.driverOpts == d)
  }

  /** A new node has what was given and nothing else. */
  ghost predicate NewAsGiven(name: string, c: Change, pp: Option<seq<string>>, r: Node) {
    && r.name == name && r.endpoint == c.endpoint && pp == Some(r.platforms)
    && (match c.flags case None => r.flags == [] case Some(f) => r.flags == f)
    && (match c.driverOpts case None => r.driverOpts == map[] case Some(d) => r.driverOpts == d)
  }

  /**
   A successful Update names one node: the first found one takes what was given, a new
   one comes last. All other nodes keep everything but the platforms it takes.
   */
  lemma UpdateTouchesOne(g: Group, parse: string -> Option<seq<string>>, c: Change) returns (i: nat)
    requires Updated(g, parse, c).1.None?
    ensures var ns, r, pp := g.nodes, Updated(g, parse, c).0, Parse(parse, c.platforms);
            i < |r| &&
            (if Named(ns, c.name) then
               |r| == |ns| && ns[i].name == c.name && (forall j :: 0 <= j < i ==> ns[j].name != c.name) && SetAsGiven(ns[i], c, pp, r[i])
             else |r| == |ns| + 1 && i == |ns| && NewAsGiven(NewName(g, c), c, pp, r[i])) &&
            forall j :: 0 <= j < |ns| && j != i ==>
              r[j] == ns[j].(platforms := r[j].platforms) && forall p :: p in r[j].platforms <==> p in ns[j].platforms && p !in r[i].platforms
  {
    var ns := g.nodes;
    i := if Used(ns, c.name) then FindNode(ns, c.name) else |ns|;
    assert Used(ns, c.name) ==> ns[i].name == c.name;
  }

  /** The platforms of an Update are those of all its texts, in order, and all texts must be readable. */
  lemma {:induction false} ParseFacts(parse: string -> Option<seq<string>>, ps: seq<string>)
    ensures Parse(parse, ps).Some? <==> forall i :: 0 <= i < |ps| ==> parse(ps[i]).Some?
    ensures Parse(parse, ps).Some? ==> forall p :: p in Parse(parse, ps).value <==> exists i :: 0 <= i < |ps| && p in parse(ps[i]).value
  {
    if ps != [] {
      var t, n := ps[..|ps| - 1], |ps| - 1;
      ParseFacts(parse, t);
      assert forall i :: 0 <= i < n ==> t[i] == ps[i];
      if Parse(parse, ps).Some? {
        forall p ensures p in Parse(parse, ps).value <==> exists i :: 0 <= i < |ps| && p in parse(ps[i]).value {
          if i: nat :| i < n && p in parse(t[i]).value { assert p in parse(ps[i]).value; }
          if p in parse(ps[n]).value { assert p in Parse(parse, ps).value; }
        }
      }
    }
  }

  /** An admitted Update is validated with the node it changed or added. */
  lemma UpdatedIs(g: Group, parse: string -> Option<seq<string>>, c: Change)
    ensures var ns, i, pp := g.nodes, FindNode(g.nodes, c.name), Parse(parse, c.platforms);
            if !Admitted(g, parse, c) then Updated(g, parse, c).0 == ns
            else if i != -1 then Updated(g, parse, c) == Validated(ns[i := Changed(ns[i], c, pp.value)], c.endpoint, i)
            else Updated(g, parse, c) == Validated(ns + [Created(WantedName(g, c), c, pp.value)], c.endpoint, |ns|)
  {
  }

  /** Names stay distinct exactly when no node is added under a lower-case name that is in use. */
  lemma UpdateKeepsNames(g: Group, parse: string -> Option<seq<string>>, c: Change)
    requires DistinctNames(g.nodes)
    ensures DistinctNames(Updated(g, parse, c).0) <==>
            !(Admitted(g, parse, c) && !Used(g.nodes, c.name) && Used(g.nodes, NewName(g, c)))
  {
    var ns := g.nodes;
    var i := FindNode(ns, c.name);
    UpdatedIs(g, parse, c);
    if Admitted(g, parse, c) {
      var pp := Parse(parse, c.platforms).value;
      if i != -1 {
        ChangedKeepsNames(ns, i, Changed(ns[i], c, pp), c.endpoint);
      } else {
        AddedKeepsNames(ns, Created(WantedName(g, c), c, pp), c.endpoint);
      }
    }
  }

  lemma ChangedKeepsNames(ns: seq<Node>, i: nat, n: Node, ep: string)
    requires DistinctNames(ns) && i < |ns| && n.name == ns[i].name
    ensures DistinctNames(Validated(ns[i := n], ep, i).0)
  {
    var ns' := ns[i := n];
    assert forall j :: 0 <= j < |ns| ==> ns'[j].name == ns[j].name;
    PinnedEndpoints(ns', i);
  }

  lemma AddedKeepsNames(ns: seq<Node>, n: Node, ep: string)
    requires DistinctNames(ns)
    ensures DistinctNames(Validated(ns + [n], ep, |ns|).0) <==> !Used(ns, n.name)
  {
    var ns' := ns + [n];
    PinnedEndpoints(ns', |ns|);
    assert forall j :: 0 <= j < |ns| ==> ns'[j] == ns[j];
    assert ns'[|ns|] == n;
    if Used(ns, n.name) {
      assert ns'[FindNode(ns, n.name)].name == ns'[|ns|].name;
    }
  }

  /** A name with capitals is looked up as given but stored in lower case: two nodes may share a name. */
  lemma NamesMayClash()
    ensures exists g: Group, parse: string -> Option<seq<string>>, c: Change ::
              DistinctNames(g.nodes) && Updated(g, parse, c).1.None? && !DistinctNames(Updated(g, parse, c).0)
  {
    var g := Group("b", false, [Node("x", "e", [], map[], [])]);
    var parse := (s: string) => Some([s]);
    var c := Change("X", "f", [], false, true, None, None);
    var ns' := g.nodes + [Created("X", c, [])];
    assert FindNode(g.nodes, "X") == -1 by { assert g.nodes[0].name[0] != 'X'; }
    assert ToLower("X") == "x";
    CountAtMostOnce(ns', "f");
    assert ns'[0].endpoint == "e" && ns'[1].endpoint == "f";
    assert "e"[0] != "f"[0];
    assert Updated(g, parse, c) == Validated(ns', "f", 1);
    PinnedEndpoints(ns', 1);
    assert ns'[0].name == ns'[1].name;
  }

  datatype Op = Update(change: Change) | Leave(node: string)

  /** What the store holds after one command: a group is saved only when there was no error. */
  function Saved(g: Group, parse: string -> Option<seq<string>>, op: Op): Group {
    var (ns, err) := match op case Update(c) => Updated(g, parse, c) case Leave(n) => Left(g, n);
    if err.Some? then g else g.(nodes := ns)
  }

  /** A command that succeeds is saved, one that fails leaves the group as it was. */
  lemma OnlySuccessSaved(g: Group, parse: string -> Option<seq<string>>, c: Change, name: string)
    ensures var (r, err) := Updated(g, parse, c); Saved(g, parse, Update(c)) == Group(g.name, g.dynamic, if err.None? then r else g.nodes)
    ensures var (r, err) := Left(g, name); Saved(g, parse, Leave(name)) == Group(g.name, g.dynamic, if err.None? then r else g.nodes)
  {
  }

  function Run(g: Group, parse: string -> Option<seq<string>>, ops: seq<Op>): Group {
    if ops == [] then g else Saved(Run(g, parse, ops[..|ops| - 1]), parse, ops[|ops| - 1])
  }

  /** Over every sequence of commands, endpoints stay distinct, platforms pinned and the group inhabited. */
  lemma {:induction false} EveryRunKeepsInv(g: Group, parse: string -> Option<seq<string>>, ops: seq<Op>)
    requires Inv(g.nodes)
    ensures Inv(Run(g, parse, ops).nodes)
    ensures g.nodes != [] ==> Run(g, parse, ops).nodes != []
    ensures g.dynamic ==> Run(g, parse, ops) == g
  {
    if ops != [] {
      EveryRunKeepsInv(g, parse, ops[..|ops| - 1]);
      var h := Run(g, parse, ops[..|ops| - 1]);
      match ops[|ops| - 1]
      case Update(c) => UpdateKeepsInv(h, parse, c);
      case Leave(n) => LeaveKeepsInv(h, n);
    }
  }

  /** Parses the platforms one by one. */
  method ParsePlatforms(parse: string -> Option<seq<string>>, ps: seq<string>) returns (r: Option<seq<string>>)
    ensures r == Parse(parse, ps)
  {
    var out := [];
    for i := 0 to |ps|
      invariant Parse(parse, ps[..i]) == Some(out)
    {
      assert ps[..i + 1][..i] == ps[..i];
      match parse(ps[i])
      case None =>
        ParseStops(parse, ps, i + 1);
        return None;
      case Some(p) => out := out + p;
    }
    assert ps[..|ps|] == ps;
    return Some(out);
  }

  lemma {:induction false} ParseStops(parse: string -> Option<seq<string>>, ps: seq<string>, i: nat)
    requires i <= |ps| && Parse(parse, ps[..i]) == None
    ensures Parse(parse, ps) == None
    decreases |ps| - i
  {
    if i == |ps| {
      assert ps[..i] == ps;
    } else {
      assert ps[..i + 1][..i] == ps[..i];
      ParseStops(parse, ps, i + 1);
    }
  }

  method FilterPlatforms(ps: seq<string>, m: set<string>) returns (out: seq<string>)
    ensures out == Filter(ps, m)
  {
    out := [];
    for i := 0 to |ps|
      invariant out == Filter(ps[..i], m)
    {
      assert ps[..i + 1][..i] == ps[..i];
      if ps[i] !in m {
        out := out + [ps[i]];
      }
    }
    assert ps[..|ps|] == ps;
  }

  class NodeGroup {
    const name: string
    const dynamic: bool
    var nodes: seq<Node>

    constructor (name: string, dynamic: bool)
      ensures Value() == Group(name, dynamic, [])
    {
      this.name := name;
      this.dynamic := dynamic;
      nodes := [];
    }

    function Value(): Group
      reads this
    {
      Group(name, dynamic, nodes)
    }

    method Find(node: string) returns (i: int)
      ensures i == FindNode(nodes, node)
    {
      i := 0;
      while i < |nodes|
        invariant 0 <= i <= |nodes|
        invariant FindFrom(nodes, node, i) == FindNode(nodes, node)
      {
        if nodes[i].name == node {
          return;
        }
        i := i + 1;
      }
      i := -1;
    }

    method NextNodeName() returns (r: string)
      ensures r == NextFrom(name, nodes, 0)
    {
      var i := 0;
      while true
        invariant forall j :: 0 <= j < i ==> Used(nodes, Candidate(name, j))
        invariant NextFrom(name, nodes, i) == NextFrom(name, nodes, 0)
        decreases |nodes| - i
      {
        r := Candidate(name, i);
        var at := Find(r);
        if at == -1 {
          return;
        }
        Pigeonhole(name, nodes, i + 1);
        i := i + 1;
      }
    }

    method ValidateDuplicates(ep: string, idx: nat) returns (err: Option<Error>)
      requires idx < |nodes|
      modifies this
      ensures (nodes, err) == Validated(old(nodes), ep, idx)
    {
      var n := 0;
      for i := 0 to |nodes|
        invariant n == CountEndpoint(nodes[..i], ep)
      {
        assert nodes[..i + 1][..i] == nodes[..i];
        if nodes[i].endpoint == ep {
          n := n + 1;
        }
      }
      assert nodes[..|nodes|] == nodes;
      if n > 1 {
        return Some(DuplicateEndpoint);
      }
      var m := Elems(nodes[idx].platforms);
      for i := 0 to |nodes|
        invariant |nodes| == |old(nodes)|
        invariant forall j :: i <= j < |nodes| ==> nodes[j] == old(nodes)[j]
        invariant forall j :: 0 <= j < i ==> nodes[j] == Pinned(old(nodes), idx)[j]
      {
        if i != idx {
          var ps := FilterPlatforms(nodes[i].platforms, m);
          nodes := nodes[i := nodes[i].(platforms := ps)];
        }
      }
      assert nodes == Pinned(old(nodes), idx);
      return None;
    }

    method Update(parse: string -> Option<seq<string>>, c: Change) returns (err: Option<Error>)
      modifies this
      ensures (nodes, err) == Updated(old(Value()), parse, c)
    {
      if dynamic {
        return Some(DynamicGroup);
      }
      var i := Find(c.name);
      if i == -1 && !c.actionAppend {
        if |nodes| > 0 {
          return Some(NotFound);
        }
        nodes := [];
      }
      var pp := ParsePlatforms(parse, c.platforms);
      if pp.None? {
        return Some(BadPlatform);
      }
      if i != -1 {
        var n := nodes[i];
        if c.endpointsSet {
          n := n.(endpoint := c.endpoint);
        }
        if |c.platforms| > 0 {
          n := n.(platforms := pp.value);
        }
        if c.flags.Some? {
          n := n.(flags := c.flags.value);
        }
        if c.driverOpts.Some? {
          n := n.(driverOpts := c.driverOpts.value);
        }
        nodes := nodes[i := n];
        err := ValidateDuplicates(c.endpoint, i);
        return;
      }
      var node := c.name;
      if node == "" {
        node := NextNodeName();
      }
      if !ValidName(node) {
        return Some(BadName);
      }
      nodes := nodes + [Created(node, c, pp.value)];
      err := ValidateDuplicates(c.endpoint, |nodes| - 1);
    }

    method Leave(node: string) returns (err: Option<Error>)
      modifies this
      ensures (nodes, err) == Left(old(Value()), node)
    {
      if dynamic {
        return Some(DynamicGroup);
      }
      var i := Find(node);
      if i == -1 {
        return Some(NotFound);
      }
      if |nodes| == 1 {
        return Some(LastNode);
      }
      nodes := nodes[..i] + nodes[i + 1..];
      return None;
    }
  }
}
