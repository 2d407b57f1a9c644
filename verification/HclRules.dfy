/**
 The rules the resolver goes by: what it means that a file is fully defined, that
 a run has started and finished certain keys, and what its outcome says about the
 file.
 */
module HclRules {
  import opened Common
  import opened Graphs
  import opened HclModel
  import opened HclSound

  /** `Undefined` is the one error that a caller may choose to ignore. */
  datatype Outcome = Done | Undefined | Cycle | Other

  /** Wrapping an error in diagnostics hides that it was about an undefined name. */
  function Wrap(r: Outcome): Outcome {
    if r == Undefined then Other else r
  }

  ghost predicate ExprDefined(c: Config, e: Expr, exclude: set<Name>, strict: bool) {
    && (forall r :: r in e.refs && r.Root() !in exclude ==>
          if r.VarRef? then IsValue(c, r.name) && r.name !in c.blockTypes else r.typ in c.blockTypes)
    && (strict ==> forall f :: f in e.calls ==> f in c.stdlib || f in c.funcs)
  }

  /** Every variable that is read and every function a function calls has a definition. */
  ghost predicate AllDefined(c: Config) {
    && (forall k :: IsKey(c, k) && ExprOf(c, k).Some? ==> ExprDefined(c, ExprOf(c, k).value, ExcludeOf(c, k), k.Function?))
    && (forall b :: 0 <= b < |c.blocks| ==> c.blocks[b].typ in c.blockTypes)
  }

  /** The expression behind `k` reads `r`. */
  ghost predicate Reads(c: Config, k: Key, r: Ref)
    requires IsKey(c, k)
  {
    ExprOf(c, k).Some? && r in ExprOf(c, k).value.refs && r.Root() !in ExcludeOf(c, k)
  }

  /**
   `early` holds what variables and functions need, directly or not, and none of
   it reads a block: these are resolved before the block types are known.
   */
  ghost predicate Early(c: Config, early: set<Key>) {
    && (forall n :: n in c.vars || n in c.optVars ==> Value(n) in early)
    && (forall n :: IsFunction(c, n) ==> Function(n) in early)
    && (forall k, d :: k in early && d in Deps(c, k) ==> d in early)
    && (forall k, r :: k in early && IsKey(c, k) && Reads(c, k, r) ==> r.VarRef?)
  }

  /** No evaluation ever fails. */
  ghost predicate EvalTotal(c: Config) {
    forall k :: IsKey(c, k) ==>
      if ExprOf(c, k).Some? then forall i :: Evaluate(c, k, i).Some? else k.Value?
  }

  ghost predicate Unsolvable(c: Config) {
    forall s :: !Solution(c, s)
  }

  /** What an outcome says about the file. */
  ghost predicate Verdict(c: Config, r: Outcome) {
    match r
    case Done => true
    case Undefined => true
    case Cycle => !Acyclic(Edge(c))
    case Other => !EvalTotal(c) && (UniqueLabels(c) ==> Unsolvable(c))
  }

  /** The object shown for a type and label belongs to such a block. */
  ghost predicate Shows(c: Config, visible: map<(Name, Name), nat>, t: Name, l: Name) {
    (t, l) in visible &&
    var b := visible[(t, l)]; b < |c.blocks| && c.blocks[b].typ == t && c.blocks[b].lbl == l
  }

  /** What is done in block `b` is what has a value, and then the block can be read. */
  ghost predicate BlockAgrees(c: Config, values: map<Key, Val>, doneB: set<Key>, visible: map<(Name, Name), nat>, b: nat) {
    && (forall a :: Attr(b, a) in doneB && IsAttr(c, b, a) ==> Attr(b, a) in values)
    && (forall a :: Attr(b, a) in values ==> Attr(b, a) in doneB && b < |c.blocks| && Shows(c, visible, c.blocks[b].typ, c.blocks[b].lbl))
  }

  /** The block bookkeeping agrees with the decoded values. */
  ghost predicate BlocksAgree(c: Config, values: map<Key, Val>, doneB: set<Key>, visible: map<(Name, Name), nat>) {
    && (forall k :: k in doneB ==> k.Attr?)
    && (forall b: nat :: BlockAgrees(c, values, doneB, visible, b))
    && (forall t, l :: (t, l) in visible ==> Shows(c, visible, t, l))
  }

  /** Started and unfinished keys are those being resolved right now, each for the sake of the one before. */
  ghost predicate CleanStack(c: Config, progress: set<Key>, done: set<Key>, stack: seq<Key>) {
    && Chain(Edge(c), stack)
    && (forall k :: k in stack ==> IsKey(c, k))
    && progress <= done + Elems(stack)
  }

  lemma CleanPush(c: Config, progress: set<Key>, done: set<Key>, stack: seq<Key>, k: Key)
    requires CleanStack(c, progress, done, stack) && IsKey(c, k)
    requires stack != [] ==> Edge(c)(stack[|stack| - 1], k)
    ensures CleanStack(c, progress + {k}, done, stack + [k])
  {
    ElemsAppend(stack, k);
    ChainPush(Edge(c), stack, k);
  }

  lemma CleanPop(c: Config, progress: set<Key>, done: set<Key>, stack: seq<Key>, k: Key)
    requires CleanStack(c, progress, done, stack + [k])
    ensures CleanStack(c, progress, done + {k}, stack)
  {
    ElemsAppend(stack, k);
    ChainPop(Edge(c), stack, k);
    assert forall x :: x in stack ==> x in stack + [k];
  }

  /** Meeting a key that is started but not finished means that the file is cyclic. */
  lemma MetAgain(c: Config, progress: set<Key>, done: set<Key>, stack: seq<Key>, k: Key)
    requires CleanStack(c, progress, done, stack)
    requires k in progress && k !in done
    requires stack != [] ==> Edge(c)(stack[|stack| - 1], k)
    ensures k in stack && Verdict(c, Cycle)
  {
    assert k in Elems(stack);
    var i :| 0 <= i < |stack| && stack[i] == k;
    ChainClosesCycle(Edge(c), stack, i);
  }

  /** A name that no block sets is never left unfinished. */
  lemma NeverPending(c: Config, progress: set<Key>, done: set<Key>, stack: seq<Key>, k: Key)
    requires CleanStack(c, progress, done, stack) && !IsKey(c, k) && k !in done
    ensures k !in progress
  {
  }

  /** A function without parameters or result can never be evaluated. */
  lemma IllFormed(c: Config, n: Name)
    requires IsFunction(c, n)
    requires var f := c.funcs[n]; f.result.None? || f.params.None? || "" in f.params.value || f.variadic == Some("")
    ensures Verdict(c, Other)
  {
    var k := Function(n);
    KeysAreKeys(c);
    forall s ensures !Solution(c, s) {
      assert k in Keys(c) && Rhs(c, s, k) == None;
      assert !Holds(c, s, k);
    }
    if ExprOf(c, k).Some? { assert Evaluate(c, k, Inputs(map[], map[])) == None; }
  }

  lemma CallFacts(c: Config, early: set<Key>, k: Key, f: Name)
    requires AllDefined(c) && Early(c, early)
    requires IsKey(c, k) && ExprOf(c, k).Some? && f in ExprOf(c, k).value.calls
    ensures IsFunction(c, f) ==> Function(f) in early && Edge(c)(k, Function(f))
    ensures k.Function? ==> f in c.stdlib || f in c.funcs
  {
    assert ExprDefined(c, ExprOf(c, k).value, ExcludeOf(c, k), k.Function?);
  }

  lemma RefEdge(c: Config, k: Key, r: Ref, d: Key)
    requires IsKey(c, k) && ExprOf(c, k).Some? && r in ExprOf(c, k).value.refs && r.Root() !in ExcludeOf(c, k)
    requires d in RefKeys(c, r)
    ensures Edge(c)(k, d)
  {
    assert d in ExprDeps(c, ExprOf(c, k).value, ExcludeOf(c, k));
  }

  lemma RefFacts(c: Config, early: set<Key>, k: Key, r: Ref, ready: bool)
    requires AllDefined(c) && Early(c, early)
    requires IsKey(c, k) && ExprOf(c, k).Some? && r in ExprOf(c, k).value.refs && r.Root() !in ExcludeOf(c, k)
    requires !ready ==> k in early
    ensures r.VarRef? ==> IsValue(c, r.name) && r.name !in c.blockTypes && Edge(c)(k, Value(r.name))
    ensures r.VarRef? && !ready ==> Value(r.name) in early
    ensures r.AttrRef? ==> ready && r.typ in c.blockTypes
    ensures forall d :: d in RefKeys(c, r) ==> Edge(c)(k, d)
  {
    assert ExprDefined(c, ExprOf(c, k).value, ExcludeOf(c, k), k.Function?);
    assert Reads(c, k, r);
    forall d | d in RefKeys(c, r) ensures Edge(c)(k, d) { RefEdge(c, k, r, d); }
    if r.VarRef? {
      assert Value(r.name) in RefKeys(c, r);
      assert Edge(c)(k, Value(r.name));
    }
  }

  ghost predicate CallLoaded(c: Config, f: Name, done: set<Key>) {
    IsFunction(c, f) ==> Function(f) in done
  }

  /** The first `n` calls are loaded. */
  ghost predicate CallsLoaded(c: Config, fs: seq<Name>, n: nat, done: set<Key>) {
    forall i :: 0 <= i < n && i < |fs| ==> CallLoaded(c, fs[i], done)
  }

  lemma CallsLoadedStep(c: Config, fs: seq<Name>, n: nat, before: set<Key>, done: set<Key>)
    requires n < |fs| && CallsLoaded(c, fs, n, before) && before <= done && CallLoaded(c, fs[n], done)
    ensures CallsLoaded(c, fs, n + 1, done)
  {
    forall i | 0 <= i < n + 1 ensures CallLoaded(c, fs[i], done) {
      if i < n { assert CallLoaded(c, fs[i], before); }
    }
  }

  ghost predicate RefLoaded(c: Config, r: Ref, exclude: set<Name>, done: set<Key>) {
    r.Root() !in exclude ==> RefKeys(c, r) <= done
  }

  /** The first `n` references are loaded. */
  ghost predicate RefsLoaded(c: Config, rs: seq<Ref>, exclude: set<Name>, n: nat, done: set<Key>) {
    forall i :: 0 <= i < n && i < |rs| ==> RefLoaded(c, rs[i], exclude, done)
  }

  lemma RefsLoadedStep(c: Config, rs: seq<Ref>, exclude: set<Name>, n: nat, before: set<Key>, done: set<Key>)
    requires n < |rs| && RefsLoaded(c, rs, exclude, n, before) && before <= done && RefLoaded(c, rs[n], exclude, done)
    ensures RefsLoaded(c, rs, exclude, n + 1, done)
  {
    forall i | 0 <= i < n + 1 ensures RefLoaded(c, rs[i], exclude, done) {
      if i < n { assert RefLoaded(c, rs[i], exclude, before); }
    }
  }

  lemma DepsLoaded(c: Config, k: Key, before: set<Key>, done: set<Key>)
    requires IsKey(c, k) && ExprOf(c, k).Some? && before <= done
    requires var e := ExprOf(c, k).value;
             CallsLoaded(c, e.calls, |e.calls|, before) && RefsLoaded(c, e.refs, ExcludeOf(c, k), |e.refs|, done)
    ensures Deps(c, k) <= done
  {
    var e := ExprOf(c, k).value;
    forall f | f in e.calls && IsFunction(c, f) ensures Function(f) in done {
      var i :| 0 <= i < |e.calls| && e.calls[i] == f;
      assert CallLoaded(c, e.calls[i], before);
    }
    forall r | r in e.refs && r.Root() !in ExcludeOf(c, k) ensures RefKeys(c, r) <= done {
      var i :| 0 <= i < |e.refs| && e.refs[i] == r;
      assert RefLoaded(c, e.refs[i], ExcludeOf(c, k), done);
    }
  }

  /** The keys of one attribute in the first `n` of some blocks. */
  ghost function AttrKeys(c: Config, bs: seq<nat>, a: Name, n: nat): set<Key>
    requires n <= |bs|
  {
    if n == 0 then {} else AttrKeys(c, bs, a, n - 1) + if IsAttr(c, bs[n - 1], a) then {Attr(bs[n - 1], a)} else {}
  }

  lemma {:induction false} AttrKeysAll(c: Config, bs: seq<nat>, a: Name, n: nat, i: nat)
    requires i < n <= |bs| && IsAttr(c, bs[i], a)
    ensures Attr(bs[i], a) in AttrKeys(c, bs, a, n)
  {
    if i < n - 1 { AttrKeysAll(c, bs, a, n - 1, i); }
  }

  lemma AttrKeysNamed(c: Config, r: Ref)
    requires r.AttrRef?
    ensures var bs := BlocksNamed(c, r.typ, r.lbl, 0); RefKeys(c, r) <= AttrKeys(c, bs, r.attr, |bs|)
  {
    var bs := BlocksNamed(c, r.typ, r.lbl, 0);
    forall k | k in RefKeys(c, r) ensures k in AttrKeys(c, bs, r.attr, |bs|) {
      var i :| 0 <= i < |bs| && bs[i] == k.block;
      AttrKeysAll(c, bs, r.attr, |bs|, i);
    }
  }

  lemma DoneIsDecoded(c: Config, values: map<Key, Val>, doneB: set<Key>, visible: map<(Name, Name), nat>, b: nat, a: Name)
    requires BlocksAgree(c, values, doneB, visible) && IsAttr(c, b, a)
    ensures Attr(b, a) in doneB <==> Attr(b, a) in values
  {
    assert BlockAgrees(c, values, doneB, visible, b);
  }

  lemma OtherStored(c: Config, values: map<Key, Val>, doneB: set<Key>, visible: map<(Name, Name), nat>, k: Key, v: Val)
    requires BlocksAgree(c, values, doneB, visible) && !k.Attr?
    ensures BlocksAgree(c, values[k := v], doneB, visible)
  {
    var values' := values[k := v];
    forall b: nat ensures BlockAgrees(c, values', doneB, visible, b) {
      assert BlockAgrees(c, values, doneB, visible, b);
    }
  }

  lemma MissingTouched(c: Config, values: map<Key, Val>, doneB: set<Key>, visible: map<(Name, Name), nat>, b: nat, a: Name)
    requires BlocksAgree(c, values, doneB, visible) && b < |c.blocks| && !IsAttr(c, b, a)
    ensures BlocksAgree(c, values, doneB + {Attr(b, a)}, visible[(c.blocks[b].typ, c.blocks[b].lbl) := b])
  {
    var visible' := visible[(c.blocks[b].typ, c.blocks[b].lbl) := b];
    var doneB' := doneB + {Attr(b, a)};
    forall d: nat ensures BlockAgrees(c, values, doneB', visible', d) {
      assert BlockAgrees(c, values, doneB, visible, d);
    }
    forall t, l | (t, l) in visible' ensures Shows(c, visible', t, l) {
      assert (t, l) != (c.blocks[b].typ, c.blocks[b].lbl) ==> Shows(c, visible, t, l);
    }
  }

  lemma BlockStored(c: Config, values: map<Key, Val>, doneB: set<Key>, visible: map<(Name, Name), nat>, b: nat, a: Name, v: Val)
    requires BlocksAgree(c, values, doneB, visible) && b < |c.blocks|
    ensures BlocksAgree(c, values[Attr(b, a) := v], doneB + {Attr(b, a)}, visible[(c.blocks[b].typ, c.blocks[b].lbl) := b])
  {
    var visible' := visible[(c.blocks[b].typ, c.blocks[b].lbl) := b];
    var values', doneB' := values[Attr(b, a) := v], doneB + {Attr(b, a)};
    forall d: nat ensures BlockAgrees(c, values', doneB', visible', d) {
      assert BlockAgrees(c, values, doneB, visible, d);
    }
    forall t, l | (t, l) in visible' ensures Shows(c, visible', t, l) {
      assert (t, l) != (c.blocks[b].typ, c.blocks[b].lbl) ==> Shows(c, visible, t, l);
    }
  }

  /** `exp` is the expression behind `cur`, which is what is being resolved. */
  ghost predicate Behind(c: Config, early: set<Key>, ready: bool, exp: Expr, exclude: set<Name>, allowMissing: bool, cur: Key) {
    && IsKey(c, cur) && ExprOf(c, cur) == Some(exp) && ExcludeOf(c, cur) == exclude
    && allowMissing == !cur.Function? && (!ready ==> cur in early)
  }

  ghost predicate OnTop(cur: Key, stack: seq<Key>) {
    stack != [] ==> stack[|stack| - 1] == cur
  }

  ghost predicate AttrLoaded(c: Config, b: nat, a: Name, done: set<Key>) {
    Deps(c, Attr(b, a)) <= done
  }

  ghost predicate ContentLoaded(c: Config, b: nat, content: set<Name>, done: set<Key>) {
    forall a :: a in content ==> AttrLoaded(c, b, a, done)
  }

  lemma ContentStep(c: Config, b: nat, content: set<Name>, a: Name, before: set<Key>, done: set<Key>)
    requires ContentLoaded(c, b, content, before) && before <= done && AttrLoaded(c, b, a, done)
    ensures ContentLoaded(c, b, content + {a}, done)
  {
    forall x | x in content + {a} ensures AttrLoaded(c, b, x, done) {
      if x in content { assert AttrLoaded(c, b, x, before); }
    }
  }

  /** `v` is the value that attribute `a` of block `b` has in this context. */
  ghost predicate AttrReady(c: Config, values: map<Key, Val>, b: nat, a: Name, v: Val) {
    && IsAttr(c, b, a) && Deps(c, Attr(b, a)) <= values.Keys
    && (UniqueLabels(c) ==> Rhs(c, values, Attr(b, a)) == Some(v))
  }

  ghost predicate AllReady(c: Config, values: map<Key, Val>, b: nat, decoded: map<Name, Val>) {
    forall a :: a in decoded ==> AttrReady(c, values, b, a, decoded[a])
  }

  lemma ReadyMore(c: Config, values: map<Key, Val>, b: nat, decoded: map<Name, Val>, a: Name, v: Val)
    requires AllReady(c, values, b, decoded) && AttrReady(c, values, b, a, v)
    ensures AllReady(c, values, b, decoded[a := v])
  {
  }

  /** Storing one decoded attribute does not change what the others were decoded to. */
  lemma ReadyKept(c: Config, values: map<Key, Val>, b: nat, todo: map<Name, Val>, a: Name)
    requires AllReady(c, values, b, todo) && a in todo && Attr(b, a) !in values
    requires forall k :: k in values ==> IsKey(c, k)
    ensures Storable(c, values, Attr(b, a), todo[a])
    ensures AllReady(c, values[Attr(b, a) := todo[a]], b, todo - {a})
  {
    var k := Attr(b, a);
    assert AttrReady(c, values, b, a, todo[a]);
    forall x | x in todo - {a} ensures AttrReady(c, values[k := todo[a]], b, x, todo[x]) {
      assert AttrReady(c, values, b, x, todo[x]);
      if UniqueLabels(c) { RhsLocal(c, values, values[k := todo[a]], Attr(b, x)); }
    }
  }

  ghost predicate NotIn(b: nat, a: Name, done: set<Key>) {
    Attr(b, a) !in done
  }

  ghost predicate NoneOf(b: nat, names: set<Name>, done: set<Key>) {
    forall a :: a in names ==> NotIn(b, a, done)
  }

  ghost predicate AllOf(b: nat, names: set<Name>, done: set<Key>) {
    forall a :: a in names ==> !NotIn(b, a, done)
  }

  lemma OfStep(b: nat, all: set<Name>, todo: set<Name>, a: Name, before: set<Key>, done: set<Key>, none: bool)
    requires AllOf(b, all - todo, before) && (none ==> NoneOf(b, todo, before))
    requires done == before + {Attr(b, a)}
    ensures AllOf(b, all - (todo - {a}), done) && (none ==> NoneOf(b, todo - {a}, done))
  {
    forall x | x in all - (todo - {a}) ensures !NotIn(b, x, done) {
      if x in all - todo { assert !NotIn(b, x, before); }
    }
    if none {
      forall x | x in todo - {a} ensures NotIn(b, x, done) {
        assert NotIn(b, x, before);
      }
    }
  }

  ghost predicate BlockDone(c: Config, b: nat, done: set<Key>) {
    forall a :: IsAttr(c, b, a) ==> Attr(b, a) in done
  }

  /** No definition uses a reserved name. */
  ghost predicate Admitted(c: Config) {
    forall n :: n in c.vars || n in c.attrs ==> n !in c.blockTypes && n !in c.optVars
  }

  ghost predicate ValueDone(n: Name, done: set<Key>) {
    Value(n) in done
  }

  ghost predicate ValuesDone(names: set<Name>, done: set<Key>) {
    forall n :: n in names ==> ValueDone(n, done)
  }

  lemma ValuesStep(names: set<Name>, n: Name, before: set<Key>, done: set<Key>)
    requires ValuesDone(names, before) && before <= done && Value(n) in done
    ensures ValuesDone(names + {n}, done)
  {
    forall x | x in names + {n} ensures ValueDone(x, done) {
      if x in names { assert ValueDone(x, before); }
    }
  }

  ghost predicate CallsDone(c: Config, names: set<Name>, done: set<Key>) {
    forall n :: n in names ==> CallLoaded(c, n, done)
  }

  lemma CallsStep(c: Config, names: set<Name>, n: Name, before: set<Key>, done: set<Key>)
    requires CallsDone(c, names, before) && before <= done && CallLoaded(c, n, done)
    ensures CallsDone(c, names + {n}, done)
  {
    forall x | x in names + {n} ensures CallLoaded(c, x, done) {
      if x in names { assert CallLoaded(c, x, before); }
    }
  }

  ghost predicate BlocksDone(c: Config, n: nat, done: set<Key>) {
    forall b :: 0 <= b < n ==> BlockDone(c, b, done)
  }

  lemma BlocksStep(c: Config, n: nat, before: set<Key>, done: set<Key>)
    requires BlocksDone(c, n, before) && before <= done && BlockDone(c, n, done)
    ensures BlocksDone(c, n + 1, done)
  {
    forall b | 0 <= b < n + 1 ensures BlockDone(c, b, done) {
      if b < n { assert BlockDone(c, b, before); }
    }
  }

  lemma EverythingDone(c: Config, early: set<Key>, blocks: set<Key>, done: set<Key>)
    requires early <= blocks <= done
    requires ValuesDone(c.optVars.Keys, early) && ValuesDone(c.vars.Keys, early) && CallsDone(c, c.funcs.Keys, early)
    requires BlocksDone(c, |c.blocks|, blocks) && ValuesDone(c.attrs.Keys, done)
    ensures Keys(c) <= done
  {
    KeysAreKeys(c);
    forall k | k in Keys(c) ensures k in done {
      match k
      case Value(n) => assert ValueDone(n, early) || ValueDone(n, done);
      case Function(n) => assert CallLoaded(c, n, early);
      case Attr(b, a) => assert BlockDone(c, b, blocks);
    }
  }

  /** What the errors of a whole run say about the file, and the values when there are none. */
  ghost predicate Judged(c: Config, log: seq<Key>, values: map<Key, Val>, diags: seq<Outcome>) {
    && (diags == [] ==> Sound(c, log, values) && Keys(c) <= values.Keys)
    && (diags != [] ==> diags[0] in {Cycle, Other} && Verdict(c, diags[0]))
  }

  /**
   The errors of a run decide the file. Without errors nothing is cyclic and each
   key was finished once, after its dependencies. When evaluation never fails, a
   cycle is reported exactly when there is one. With unique labels, a run has no
   errors exactly when the file is acyclic and has a solution, and then its
   values are that solution, which is the only one.
   */
  lemma RunDecides(c: Config, log: seq<Key>, values: map<Key, Val>, diags: seq<Outcome>)
    requires Judged(c, log, values, diags)
    ensures diags == [] ==> Acyclic(Edge(c)) && Elems(log) == Keys(c) && Distinct(log) && Ordered(Edge(c), log)
    ensures EvalTotal(c) ==> (Cycle in diags <==> !Acyclic(Edge(c)))
    ensures UniqueLabels(c) ==> (diags == [] <==> Acyclic(Edge(c)) && exists s :: Solution(c, s))
    ensures UniqueLabels(c) && diags == [] ==> Solution(c, values) && forall s :: Solution(c, s) ==> s == values
  {
    if diags == [] {
      FinishedMeansAcyclic(c, log, values);
      if UniqueLabels(c) {
        FinishedMeansSolved(c, log, values);
      }
    } else if diags[0] == Cycle {
      assert !Acyclic(Edge(c));
    }
  }

  /** Two runs over the same file, whatever their order, agree on success and on every value. */
  lemma OrderDoesNotMatter(c: Config, log1: seq<Key>, values1: map<Key, Val>, diags1: seq<Outcome>,
                           log2: seq<Key>, values2: map<Key, Val>, diags2: seq<Outcome>)
    requires UniqueLabels(c) && Judged(c, log1, values1, diags1) && Judged(c, log2, values2, diags2)
    ensures diags1 == [] <==> diags2 == []
    ensures diags1 == [] ==> values1 == values2
  {
    RunDecides(c, log1, values1, diags1);
    RunDecides(c, log2, values2, diags2);
  }
}
