/**
 The lazy resolver behind Parse: mutually recursive methods that evaluate names
 on demand, remember every value in the evaluation context, and detect cycles by
 progress marks that are never cleared.
 */
module HclParser {
  import opened Common
  import opened Graphs
  import opened HclModel
  import opened HclSound
  import opened HclRules

  class Parser {
    const c: Config
    ghost const early: set<Key>

    /** Whether the file is one the theorems speak about. */
    ghost const hyp: bool

    /** The evaluation context: variables, functions and the decoded attributes of blocks. */
    var values: map<Key, Val>

    /** The block whose object a type and label currently show. */
    var visible: map<(Name, Name), nat>

    /** Whether the block types are known yet. */
    var ready: bool

    /** The marks progressV, progressF and progressB, which are never cleared. */
    var progress: set<Key>
    var doneB: set<Key>

    /** The finished keys, in order. */
    ghost var log: seq<Key>

    ghost predicate Meant() {
      hyp == (AllDefined(c) && Early(c, early))
    }

    ghost predicate Valid()
      reads this
    {
      hyp ==> Sound(c, log, values) && BlocksAgree(c, values, doneB, visible)
    }

    ghost predicate Clean(stack: seq<Key>)
      reads this
    {
      CleanStack(c, progress, values.Keys + doneB, stack)
    }

    /** Nothing that was known or started is forgotten; what others have started is left to them. */
    twostate predicate Grown()
      reads this
    {
      && old(values).Keys <= values.Keys
      && old(progress) <= progress
      && old(progress) * values.Keys <= old(values).Keys
      && old(doneB) <= doneB
      && ready == old(ready)
    }

    constructor (raw: Config, ghost early: set<Key>)
      ensures c == Admit(raw) && this.early == early
      ensures Meant() && Valid() && Clean([]) && log == [] && !ready
    {
      c := Admit(raw);
      this.early := early;
      hyp := AllDefined(Admit(raw)) && Early(Admit(raw), early);
      values := map[];
      visible := map[];
      ready := false;
      progress, doneB := {}, {};
      log := [];
    }

    /** What an expression sees in the current evaluation context. */
    function Scope(e: Expr, exclude: set<Name>): Inputs
      reads this
    {
      Inputs(
        map r | r in e.refs && r.Root() !in exclude && CanRead(r) :: Read(r),
        FunctionsOf(c, values, e))
    }

    predicate CanRead(r: Ref)
      reads this
    {
      match r
      case VarRef(n) => Value(n) in values
      case AttrRef(t, l, a) => (t, l) in visible && Attr(visible[(t, l)], a) in values
    }

    function Read(r: Ref): Val
      requires CanRead(r)
      reads this
    {
      match r
      case VarRef(n) => values[Value(n)]
      case AttrRef(t, l, a) => values[Attr(visible[(t, l)], a)]
    }

    lemma ReadAgrees(r: Ref)
      requires hyp && Valid() && UniqueLabels(c)
      requires RefKeys(c, r) <= values.Keys
      ensures CanRead(r) <==> Readable(c, values, r)
      ensures CanRead(r) ==> Read(r) == values[RefKey(c, r).value]
    {
      RefKeyIsRefKeys(c, r);
      SoundKeys(c, log, values);
      if r.AttrRef? && RefKey(c, r).Some? {
        var b := RefKey(c, r).value.block;
        assert Attr(b, r.attr) in RefKeys(c, r);
        assert BlockAgrees(c, values, doneB, visible, b);
        assert visible[(r.typ, r.lbl)] == b;
      }
    }

    /** With all dependencies finished, the context shows exactly what the equation reads. */
    lemma ScopeAgrees(e: Expr, exclude: set<Name>)
      requires hyp && Valid() && UniqueLabels(c)
      requires ExprDeps(c, e, exclude) <= values.Keys
      ensures Scope(e, exclude) == InputsOf(c, values, e, exclude)
    {
      forall r | r in e.refs && r.Root() !in exclude
        ensures CanRead(r) <==> Readable(c, values, r)
        ensures CanRead(r) ==> Read(r) == values[RefKey(c, r).value]
      {
        assert RefKeys(c, r) <= ExprDeps(c, e, exclude);
        ReadAgrees(r);
      }
      assert Scope(e, exclude).values == ValuesOf(c, values, e, exclude);
    }

    lemma RhsSeen(k: Key)
      requires hyp && Valid() && UniqueLabels(c)
      requires IsKey(c, k) && ExprOf(c, k).Some? && Deps(c, k) <= values.Keys
      ensures Rhs(c, values, k) == Evaluate(c, k, Scope(ExprOf(c, k).value, ExcludeOf(c, k)))
    {
      ScopeAgrees(ExprOf(c, k).value, ExcludeOf(c, k));
    }

    /** An evaluation that fails after all dependencies were loaded settles the whole file. */
    lemma Stuck(k: Key)
      requires hyp && Valid()
      requires IsKey(c, k) && ExprOf(c, k).Some? && Deps(c, k) <= values.Keys
      requires Evaluate(c, k, Scope(ExprOf(c, k).value, ExcludeOf(c, k))) == None
      ensures Verdict(c, Other)
    {
      if UniqueLabels(c) {
        RhsSeen(k);
        StuckMeansNoSolution(c, log, values, k);
      }
    }

    ghost function Unmarked(): set<Key>
      reads this
    {
      Keys(c) - progress
    }

    /** Starts `k`, on behalf of the last key of `stack`. */
    method Mark(k: Key, ghost stack: seq<Key>)
      requires Valid() && k !in progress && (hyp ==> IsKey(c, k))
      requires stack != [] && hyp ==> Edge(c)(stack[|stack| - 1], k)
      modifies `progress
      ensures progress == old(progress) + {k}
      ensures Valid()
      ensures IsKey(c, k) ==> Unmarked() < old(Unmarked())
      ensures hyp && old(Clean(stack)) ==> Clean(stack + [k])
    {
      if hyp && Clean(stack) { CleanPush(c, progress, values.Keys + doneB, stack, k); }
      KeysAreKeys(c);
      assert IsKey(c, k) ==> k in Unmarked();
      progress := progress + {k};
      assert k !in Unmarked();
    }

    /** Finishes `k` with its value. */
    method Store(k: Key, v: Val, ghost stack: seq<Key>)
      requires Valid() && !k.Attr? && (hyp ==> Storable(c, values, k, v))
      modifies `values, `log
      ensures Valid()
      ensures values == old(values)[k := v] && log == old(log) + [k]
      ensures hyp && old(Clean(stack + [k])) ==> Clean(stack)
    {
      if hyp && Clean(stack + [k]) {
        CleanPop(c, progress, values.Keys + doneB, stack, k);
        assert values.Keys + doneB + {k} == values[k := v].Keys + doneB;
      }
      if hyp {
        SoundFinish(c, log, values, k, v);
        OtherStored(c, values, doneB, visible, k, v);
      }
      values := values[k := v];
      log := log + [k];
    }

    /** Evaluates the expression behind `k`, once its dependencies are there, and finishes `k`. */
    method EvaluateInto(k: Key, ghost stack: seq<Key>) returns (r: Outcome)
      requires Valid() && !k.Attr? && IsKey(c, k) && ExprOf(c, k).Some?
      requires hyp ==> k !in values && Deps(c, k) <= values.Keys
      modifies `values, `log
      ensures Valid()
      ensures r == Done || r == Other
      ensures values.Keys == old(values).Keys + if r == Done then {k} else {}
      ensures hyp ==> Verdict(c, r)
      ensures hyp && old(Clean(stack + [k])) && r == Done ==> Clean(stack)
    {
      var v := Evaluate(c, k, Scope(ExprOf(c, k).value, ExcludeOf(c, k)));
      if v.None? {
        if hyp { Stuck(k); }
        return Other;
      }
      if hyp && UniqueLabels(c) { RhsSeen(k); }
      Store(k, v.value, stack);
      return Done;
    }

    /** Forces the evaluation of a named value. */
    method ResolveValue(n: Name, ghost stack: seq<Key>) returns (r: Outcome)
      requires Meant() && Valid()
      requires hyp ==> IsValue(c, n) && (!ready ==> Value(n) in early)
      requires stack != [] && hyp ==> Edge(c)(stack[|stack| - 1], Value(n))
      modifies this
      ensures Valid() && Grown()
      ensures hyp ==> r != Undefined && (r == Done ==> Value(n) in values)
      ensures hyp && old(Clean(stack)) ==> Verdict(c, r) && (r == Done ==> Clean(stack))
      ensures hyp && old(Clean(stack)) && stack == [] && ValueExpr(c, n).None? ==> r == Done
      decreases Unmarked(), 1, 0
    {
      var k := Value(n);
      if k in values {
        return Done;
      }
      if k in progress {
        if hyp && Clean(stack) { MetAgain(c, progress, values.Keys + doneB, stack, k); }
        return Cycle;
      }
      Mark(k, stack);

      var def: Option<Expr> := if n in c.attrs then Some(c.attrs[n]) else None;
      if n !in c.attrs && n !in c.optVars {
        if n !in c.vars {
          return Undefined;
        }
        def := c.vars[n].default;
      }
      assert IsKey(c, k) && def == ExprOf(c, k) && ExcludeOf(c, k) == {};

      if def.None? {
        Store(k, Plain(c, n), stack);
        return Done;
      }

      r := LoadDeps(def.value, {}, true, k, stack + [k]);
      if r != Done {
        return;
      }
      r := EvaluateInto(k, stack);
    }

    /** Forces the evaluation of a function. */
    method ResolveFunction(n: Name, ghost stack: seq<Key>) returns (r: Outcome)
      requires Meant() && Valid()
      requires hyp && !ready && IsFunction(c, n) ==> Function(n) in early
      requires stack != [] && hyp && IsFunction(c, n) ==> Edge(c)(stack[|stack| - 1], Function(n))
      modifies this
      ensures Valid() && Grown()
      ensures r == Undefined ==> n !in c.stdlib && n !in c.funcs
      ensures hyp && r == Done && IsFunction(c, n) ==> Function(n) in values
      ensures hyp && old(Clean(stack)) ==> Verdict(c, r) && (r == Done || r == Undefined ==> Clean(stack))
      decreases Unmarked(), 1, 0
    {
      var k := Function(n);
      if n in c.stdlib || k in values {
        return Done;
      }
      if n !in c.funcs {
        return Undefined;
      }
      if k in progress {
        if hyp && Clean(stack) { MetAgain(c, progress, values.Keys + doneB, stack, k); }
        return Cycle;
      }
      Mark(k, stack);

      var f := c.funcs[n];
      if f.result.None? || f.params.None? || "" in f.Params() {
        IllFormed(c, n);
        return Other;
      }
      r := LoadDeps(f.result.value, f.Params(), false, k, stack + [k]);
      if r != Done {
        return;
      }
      r := EvaluateInto(k, stack);
    }

    /** Loads everything the expression behind `cur` needs: first the functions it calls, then the names it reads. */
    method LoadDeps(exp: Expr, exclude: set<Name>, allowMissing: bool, ghost cur: Key, ghost stack: seq<Key>)
      returns (r: Outcome)
      requires Meant() && Valid() && (hyp ==> Behind(c, early, ready, exp, exclude, allowMissing, cur)) && OnTop(cur, stack)
      modifies this
      ensures Valid() && Grown()
      ensures r != Undefined
      ensures hyp && r == Done ==> Deps(c, cur) <= values.Keys
      ensures hyp && old(Clean(stack)) ==> Verdict(c, r) && (r == Done ==> Clean(stack))
      decreases Unmarked(), 2, 2
    {
      r := LoadCalls(exp, exclude, allowMissing, cur, stack);
      if r != Done {
        return;
      }
      ghost var called := values.Keys;
      r := LoadRefs(exp, exclude, allowMissing, cur, stack);
      if hyp && r == Done {
        DepsLoaded(c, cur, called, values.Keys);
      }
    }

    method LoadCalls(exp: Expr, exclude: set<Name>, allowMissing: bool, ghost cur: Key, ghost stack: seq<Key>)
      returns (r: Outcome)
      requires Meant() && Valid() && (hyp ==> Behind(c, early, ready, exp, exclude, allowMissing, cur)) && OnTop(cur, stack)
      modifies this
      ensures Valid() && Grown()
      ensures r != Undefined
      ensures hyp && r == Done ==> CallsLoaded(c, exp.calls, |exp.calls|, values.Keys)
      ensures hyp && old(Clean(stack)) ==> Verdict(c, r) && (r == Done ==> Clean(stack))
      decreases Unmarked(), 2, 1
    {
      for i := 0 to |exp.calls|
        invariant Valid() && Grown()
        invariant hyp ==> CallsLoaded(c, exp.calls, i, values.Keys)
        invariant hyp && old(Clean(stack)) ==> Clean(stack)
      {
        ghost var before := values.Keys;
        r := LoadCall(exp.calls[i], exp, exclude, allowMissing, cur, stack);
        if r != Done {
          return;
        }
        if hyp { CallsLoadedStep(c, exp.calls, i, before, values.Keys); }
      }
      return Done;
    }

    method LoadCall(f: Name, exp: Expr, exclude: set<Name>, allowMissing: bool, ghost cur: Key, ghost stack: seq<Key>)
      returns (r: Outcome)
      requires Meant() && Valid() && (hyp ==> Behind(c, early, ready, exp, exclude, allowMissing, cur)) && OnTop(cur, stack) && f in exp.calls
      modifies this
      ensures Valid() && Grown()
      ensures r != Undefined
      ensures hyp && r == Done ==> CallLoaded(c, f, values.Keys)
      ensures hyp && old(Clean(stack)) ==> Verdict(c, r) && (r == Done ==> Clean(stack))
      decreases Unmarked(), 2, 0
    {
      if hyp { CallFacts(c, early, cur, f); }
      r := ResolveFunction(f, stack);
      r := if allowMissing && r == Undefined then Done else Wrap(r);
    }

    method LoadRefs(exp: Expr, exclude: set<Name>, allowMissing: bool, ghost cur: Key, ghost stack: seq<Key>)
      returns (r: Outcome)
      requires Meant() && Valid() && (hyp ==> Behind(c, early, ready, exp, exclude, allowMissing, cur)) && OnTop(cur, stack)
      modifies this
      ensures Valid() && Grown()
      ensures r != Undefined
      ensures hyp && r == Done ==> RefsLoaded(c, exp.refs, exclude, |exp.refs|, values.Keys)
      ensures hyp && old(Clean(stack)) ==> Verdict(c, r) && (r == Done ==> Clean(stack))
      decreases Unmarked(), 2, 1
    {
      for i := 0 to |exp.refs|
        invariant Valid() && Grown()
        invariant hyp ==> RefsLoaded(c, exp.refs, exclude, i, values.Keys)
        invariant hyp && old(Clean(stack)) ==> Clean(stack)
      {
        ghost var before := values.Keys;
        if exp.refs[i].Root() in exclude {
          if hyp { RefsLoadedStep(c, exp.refs, exclude, i, before, before); }
          continue;
        }
        r := LoadRef(exp.refs[i], exp, exclude, allowMissing, cur, stack);
        if r != Done {
          return;
        }
        if hyp { RefsLoadedStep(c, exp.refs, exclude, i, before, values.Keys); }
      }
      return Done;
    }

    method LoadRef(ref: Ref, exp: Expr, exclude: set<Name>, allowMissing: bool, ghost cur: Key, ghost stack: seq<Key>)
      returns (r: Outcome)
      requires Meant() && Valid() && (hyp ==> Behind(c, early, ready, exp, exclude, allowMissing, cur)) && OnTop(cur, stack)
      requires ref in exp.refs && ref.Root() !in exclude
      modifies this
      ensures Valid() && Grown()
      ensures r != Undefined
      ensures hyp && r == Done ==> RefLoaded(c, ref, exclude, values.Keys)
      ensures hyp && old(Clean(stack)) ==> Verdict(c, r) && (r == Done ==> Clean(stack))
      decreases Unmarked(), 2, 0
    {
      if hyp { RefFacts(c, early, cur, ref, ready); }
      if ready && ref.Root() in c.blockTypes {
        if ref.VarRef? {
          return Other;
        }
        r := ResolveNamed(ref, stack);
      } else {
        r := ResolveValue(ref.Root(), stack);
      }
      r := if allowMissing && r == Undefined then Done else Wrap(r);
    }

    /** Resolves one attribute of every block that carries the type and label of the reference. */
    method ResolveNamed(ref: Ref, ghost stack: seq<Key>) returns (r: Outcome)
      requires Meant() && Valid() && ready && ref.AttrRef?
      requires stack != [] && hyp ==> forall k :: k in RefKeys(c, ref) ==> Edge(c)(stack[|stack| - 1], k)
      modifies this
      ensures Valid() && Grown()
      ensures r != Undefined
      ensures hyp && r == Done ==> RefKeys(c, ref) <= values.Keys
      ensures hyp && old(Clean(stack)) ==> Verdict(c, r) && (r == Done ==> Clean(stack))
      decreases Unmarked(), 1, 1
    {
      var bs := BlocksNamed(c, ref.typ, ref.lbl, 0);
      for i := 0 to |bs|
        invariant Valid() && Grown()
        invariant hyp ==> AttrKeys(c, bs, ref.attr, i) <= values.Keys
        invariant hyp && old(Clean(stack)) ==> Clean(stack)
      {
        assert bs[i] in bs;
        if IsAttr(c, bs[i], ref.attr) { assert Attr(bs[i], ref.attr) in RefKeys(c, ref); }
        r := ResolveTarget(bs[i], ref.attr, stack);
        if r != Done {
          return;
        }
      }
      AttrKeysNamed(c, ref);
      return Done;
    }

    /** Resolves one attribute of a block, ahead of the others. */
    method ResolveTarget(b: nat, a: Name, ghost stack: seq<Key>) returns (r: Outcome)
      requires Meant() && Valid() && ready && b < |c.blocks|
      requires stack != [] && hyp && IsAttr(c, b, a) ==> Edge(c)(stack[|stack| - 1], Attr(b, a))
      modifies this
      ensures Valid() && Grown()
      ensures r != Undefined
      ensures hyp && r == Done && IsAttr(c, b, a) ==> Attr(b, a) in values
      ensures hyp && old(Clean(stack)) ==> Verdict(c, r) && (r == Done ==> Clean(stack))
      decreases Unmarked(), 1, 0
    {
      var k := Attr(b, a);
      if hyp && IsAttr(c, b, a) { DoneIsDecoded(c, values, doneB, visible, b, a); }
      if k in doneB {
        return Done;
      }
      if a !in c.blocks[b].attrs {
        r := TouchMissing(b, a, stack);
        return;
      }
      if k in progress {
        if hyp && Clean(stack) { MetAgain(c, progress, values.Keys + doneB, stack, k); }
        return Cycle;
      }
      Mark(k, stack);
      r := LoadDeps(c.blocks[b].attrs[a], {}, true, k, stack + [k]);
      if r != Done {
        return;
      }
      r := DecodeInto(b, a, stack);
    }

    /** Decodes one attribute, once its dependencies are there. */
    method DecodeInto(b: nat, a: Name, ghost stack: seq<Key>) returns (r: Outcome)
      requires Valid() && IsAttr(c, b, a)
      requires hyp ==> Attr(b, a) !in values && Deps(c, Attr(b, a)) <= values.Keys
      modifies `values, `log, `doneB, `visible
      ensures Valid()
      ensures r == Done || r == Other
      ensures values.Keys == old(values).Keys + if r == Done then {Attr(b, a)} else {}
      ensures old(doneB) <= doneB
      ensures hyp ==> Verdict(c, r)
      ensures hyp && old(Clean(stack + [Attr(b, a)])) && r == Done ==> Clean(stack)
    {
      var k := Attr(b, a);
      var v := c.blocks[b].attrs[a].value(Scope(c.blocks[b].attrs[a], {}));
      if v.None? {
        if hyp { Stuck(k); }
        return Other;
      }
      if hyp && UniqueLabels(c) { RhsSeen(k); }
      StoreAttr(b, a, v.value, stack);
      return Done;
    }

    /** A name that the block does not set is marked and done at once. */
    method TouchMissing(b: nat, a: Name, ghost stack: seq<Key>) returns (r: Outcome)
      requires Valid() && b < |c.blocks| && !IsAttr(c, b, a) && Attr(b, a) !in doneB
      modifies `progress, `doneB, `visible
      ensures Valid() && Grown()
      ensures r == Done || r == Cycle
      ensures hyp && old(Clean(stack)) ==> r == Done && Clean(stack)
    {
      var k := Attr(b, a);
      if hyp { SoundKeys(c, log, values); }
      if hyp && Clean(stack) { NeverPending(c, progress, values.Keys + doneB, stack, k); }
      if k in progress {
        return Cycle;
      }
      if hyp { MissingTouched(c, values, doneB, visible, b, a); }
      progress := progress + {k};
      doneB := doneB + {k};
      visible := visible[(c.blocks[b].typ, c.blocks[b].lbl) := b];
      return Done;
    }

    /** Finishes an attribute: decoded, done, and visible to references. */
    method StoreAttr(b: nat, a: Name, v: Val, ghost stack: seq<Key>)
      requires Valid() && b < |c.blocks| && (hyp ==> Storable(c, values, Attr(b, a), v))
      modifies `values, `log, `doneB, `visible
      ensures Valid()
      ensures values == old(values)[Attr(b, a) := v] && doneB == old(doneB) + {Attr(b, a)}
      ensures hyp && old(Clean(stack + [Attr(b, a)])) ==> Clean(stack)
      ensures hyp && old(Clean(stack)) ==> Clean(stack)
    {
      var k := Attr(b, a);
      if hyp && Clean(stack + [k]) {
        CleanPop(c, progress, values.Keys + doneB, stack, k);
        assert values.Keys + doneB + {k} == values[k := v].Keys + (doneB + {k});
      }
      if hyp {
        BlockStored(c, values, doneB, visible, b, a, v);
      }
      if hyp { SoundFinish(c, log, values, k, v); }
      values := values[k := v];
      log := log + [k];
      doneB := doneB + {k};
      visible := visible[(c.blocks[b].typ, c.blocks[b].lbl) := b];
    }

    /** The values may grow; nothing is forgotten. */
    twostate predicate Kept()
      reads this
    {
      old(values).Keys <= values.Keys && old(doneB) <= doneB && ready == old(ready)
    }

    /**
     Resolves what is left of a block: loads the dependencies of all attributes
     that are not done, and then decodes those that still are not.
     */
    method ResolveRest(b: nat) returns (r: Outcome)
      requires Meant() && Valid() && ready && b < |c.blocks|
      modifies this
      ensures Valid() && Kept()
      ensures r != Undefined
      ensures hyp && r == Done ==> BlockDone(c, b, values.Keys)
      ensures hyp && old(Clean([])) ==> Verdict(c, r) && (r == Done ==> Clean([]))
    {
      r := LoadContent(b, Open(b));
      if r != Done {
        return;
      }
      var decoded;
      r, decoded := DecodeRest(b, Open(b));
      if r != Done {
        return;
      }
      if hyp { OpenUndecoded(b); }
      ghost var undone := Open(b);
      StoreRest(b, decoded);
      forall a | hyp && IsAttr(c, b, a) ensures Attr(b, a) in values {
        if a in undone { assert !NotIn(b, a, values.Keys); }
      }
    }

    lemma OpenUndecoded(b: nat)
      requires Valid() && hyp && b < |c.blocks|
      ensures NoneOf(b, Open(b), values.Keys)
      ensures forall a :: IsAttr(c, b, a) && a !in Open(b) ==> Attr(b, a) in values
    {
      forall a | IsAttr(c, b, a) ensures Attr(b, a) in doneB <==> Attr(b, a) in values {
        DoneIsDecoded(c, values, doneB, visible, b, a);
      }
    }

    /** The attributes of a block that are not done. */
    function Open(b: nat): set<Name>
      requires b < |c.blocks|
      reads this
    {
      set a | a in c.blocks[b].attrs && Attr(b, a) !in doneB
    }

    method LoadContent(b: nat, content: set<Name>) returns (r: Outcome)
      requires Meant() && Valid() && ready && b < |c.blocks| && content == Open(b)
      modifies this
      ensures Valid() && Kept()
      ensures r != Undefined
      ensures hyp && r == Done ==> Open(b) <= content && ContentLoaded(c, b, content, values.Keys)
      ensures hyp && old(Clean([])) ==> Verdict(c, r) && (r == Done ==> Clean([]))
    {
      var todo := content;
      while todo != {}
        invariant Valid() && Kept() && todo <= content
        invariant hyp ==> ContentLoaded(c, b, content - todo, values.Keys)
        invariant hyp && old(Clean([])) ==> Clean([])
        decreases |todo|
      {
        var a :| a in todo;
        ghost var before := values.Keys;
        r := LoadDeps(c.blocks[b].attrs[a], {}, true, Attr(b, a), []);
        if r != Done {
          return;
        }
        if hyp { ContentStep(c, b, content - todo, a, before, values.Keys); }
        OneMoreDone(content, todo, a);
        todo := todo - {a};
      }
      AllDone(content);
      return Done;
    }

    /** Decodes attributes in the current context, without storing anything yet. */
    method DecodeRest(b: nat, rest: set<Name>) returns (r: Outcome, decoded: map<Name, Val>)
      requires Valid() && b < |c.blocks| && (forall a :: a in rest ==> IsAttr(c, b, a))
      requires hyp ==> ContentLoaded(c, b, rest, values.Keys)
      ensures r == Done || r == Other
      ensures r == Done ==> decoded.Keys == rest
      ensures hyp ==> Verdict(c, r)
      ensures hyp && r == Done ==> AllReady(c, values, b, decoded)
    {
      var todo := rest;
      decoded := map[];
      while todo != {}
        invariant todo <= rest && decoded.Keys == rest - todo
        invariant hyp ==> AllReady(c, values, b, decoded)
        decreases |todo|
      {
        var a :| a in todo;
        var v := DecodeOne(b, a);
        if v.None? {
          return Other, decoded;
        }
        if hyp { ReadyMore(c, values, b, decoded, a, v.value); }
        decoded := decoded[a := v.value];
        todo := todo - {a};
      }
      return Done, decoded;
    }

    method DecodeOne(b: nat, a: Name) returns (v: Option<Val>)
      requires Valid() && IsAttr(c, b, a)
      requires hyp ==> AttrLoaded(c, b, a, values.Keys)
      ensures hyp && v.None? ==> Verdict(c, Other)
      ensures hyp && v.Some? ==> AttrReady(c, values, b, a, v.value)
    {
      var e := c.blocks[b].attrs[a];
      v := e.value(Scope(e, {}));
      if hyp && v.None? { Stuck(Attr(b, a)); }
      if hyp && UniqueLabels(c) { RhsSeen(Attr(b, a)); }
    }

    method StoreRest(b: nat, decoded: map<Name, Val>)
      requires Valid() && b < |c.blocks|
      requires hyp ==> AllReady(c, values, b, decoded) && NoneOf(b, decoded.Keys, values.Keys)
      modifies `values, `log, `doneB, `visible
      ensures Valid()
      ensures AllOf(b, decoded.Keys, values.Keys) && old(values).Keys <= values.Keys
      ensures old(doneB) <= doneB
      ensures hyp && old(Clean([])) ==> Clean([])
    {
      var todo := decoded;
      while todo != map[]
        invariant Valid() && todo.Keys <= decoded.Keys
        invariant hyp ==> AllReady(c, values, b, todo) && NoneOf(b, todo.Keys, values.Keys)
        invariant AllOf(b, decoded.Keys - todo.Keys, values.Keys) && old(values).Keys <= values.Keys
        invariant old(doneB) <= doneB
        invariant hyp && old(Clean([])) ==> Clean([])
        decreases |todo|
      {
        var a :| a in todo;
        if hyp {
          SoundKeys(c, log, values);
          assert NotIn(b, a, values.Keys);
          ReadyKept(c, values, b, todo, a);
        }
        ghost var before := values.Keys;
        StoreAttr(b, a, todo[a], []);
        OfStep(b, decoded.Keys, todo.Keys, a, before, values.Keys, hyp);
        var rest := todo - {a};
        assert rest.Keys == todo.Keys - {a} && a !in rest;
        assert |rest.Keys| < |todo.Keys|;
        todo := rest;
      }
      AllDone(decoded.Keys);
    }

    /** Built-in variables come first; their errors would be ignored, but there are none. */
    method ResolveBuiltins()
      requires Meant() && Valid() && Clean([]) && !ready && Admitted(c)
      modifies this
      ensures Valid() && Kept()
      ensures hyp ==> Clean([]) && ValuesDone(c.optVars.Keys, values.Keys)
    {
      var todo := c.optVars.Keys;
      while todo != {}
        invariant Valid() && Kept() && todo <= c.optVars.Keys
        invariant hyp ==> Clean([]) && ValuesDone(c.optVars.Keys - todo, values.Keys)
        decreases |todo|
      {
        var n :| n in todo;
        ghost var before := values.Keys;
        var _ := ResolveValue(n, []);
        if hyp { ValuesStep(c.optVars.Keys - todo, n, before, values.Keys); }
        assert c.optVars.Keys - (todo - {n}) == c.optVars.Keys - todo + {n};
        todo := todo - {n};
      }
      assert c.optVars.Keys - todo == c.optVars.Keys;
    }

    /** Resolves named values in any order, up to the first error. */
    method ResolveValues(names: set<Name>) returns (r: Outcome)
      requires Meant() && Valid() && (forall n :: n in names ==> IsValue(c, n))
      requires hyp && !ready ==> forall n :: n in names ==> Value(n) in early
      modifies this
      ensures Valid() && Kept()
      ensures hyp && r == Done ==> ValuesDone(names, values.Keys)
      ensures hyp ==> r != Undefined
      ensures hyp && old(Clean([])) ==> Verdict(c, r) && (r == Done ==> Clean([]))
    {
      var todo := names;
      while todo != {}
        invariant Valid() && Kept() && todo <= names
        invariant hyp ==> ValuesDone(names - todo, values.Keys)
        invariant hyp && old(Clean([])) ==> Clean([])
        decreases |todo|
      {
        var n :| n in todo;
        ghost var before := values.Keys;
        r := ResolveValue(n, []);
        if r != Done {
          return;
        }
        if hyp { ValuesStep(names - todo, n, before, values.Keys); }
        assert names - (todo - {n}) == names - todo + {n};
        todo := todo - {n};
      }
      assert names - todo == names;
      return Done;
    }

    /** Resolves all functions in any order, up to the first error. */
    method ResolveFunctions() returns (r: Outcome)
      requires Meant() && Valid()
      modifies this
      ensures Valid() && Kept()
      ensures hyp && r == Done ==> CallsDone(c, c.funcs.Keys, values.Keys)
      ensures r != Undefined
      ensures hyp && old(Clean([])) ==> Verdict(c, r) && (r == Done ==> Clean([]))
    {
      var todo := c.funcs.Keys;
      while todo != {}
        invariant Valid() && Kept() && todo <= c.funcs.Keys
        invariant hyp ==> CallsDone(c, c.funcs.Keys - todo, values.Keys)
        invariant hyp && old(Clean([])) ==> Clean([])
        decreases |todo|
      {
        var n :| n in todo;
        ghost var before := values.Keys;
        r := ResolveFunction(n, []);
        if r != Done {
          return;
        }
        if hyp { CallsStep(c, c.funcs.Keys - todo, n, before, values.Keys); }
        assert c.funcs.Keys - (todo - {n}) == c.funcs.Keys - todo + {n};
        todo := todo - {n};
      }
      assert c.funcs.Keys - todo == c.funcs.Keys;
      return Done;
    }

    /** Resolves all blocks in file order; an error does not stop the loop. */
    method ResolveBlocks() returns (diags: seq<Outcome>)
      requires Meant() && Valid() && ready
      modifies this
      ensures Valid() && Kept()
      ensures hyp && diags == [] ==> BlocksDone(c, |c.blocks|, values.Keys)
      ensures hyp && old(Clean([])) && diags == [] ==> Clean([])
      ensures hyp && old(Clean([])) && diags != [] ==> diags[0] in {Cycle, Other} && Verdict(c, diags[0])
    {
      diags := [];
      for b := 0 to |c.blocks|
        invariant Valid() && Kept()
        invariant hyp && diags == [] ==> BlocksDone(c, b, values.Keys)
        invariant hyp && old(Clean([])) && diags == [] ==> Clean([])
        invariant hyp && old(Clean([])) && diags != [] ==> diags[0] in {Cycle, Other} && Verdict(c, diags[0])
      {
        ghost var before := values.Keys;
        var r := ResolveRest(b);
        if r != Done {
          diags := diags + [r];
          continue;
        }
        if hyp && diags == [] { BlocksStep(c, b, before, values.Keys); }
      }
    }

    /**
     All resolution loops of Parse. The order in which map keys are visited is
     left open; the outcome is the list of errors that are reported.
     */
    method Parse() returns (diags: seq<Outcome>)
      requires Meant() && Valid() && Clean([]) && !ready && Admitted(c)
      modifies this
      ensures AllDefined(c) && Early(c, early) ==> Judged(c, log, values, diags)
    {
      ResolveBuiltins();
      var r := ResolveValues(c.vars.Keys);
      if r != Done {
        return [r];
      }
      r := ResolveFunctions();
      if r != Done {
        return [r];
      }
      ghost var early' := values.Keys;
      ready := true;
      diags := ResolveBlocks();
      if diags != [] {
        return;
      }
      ghost var blocks' := values.Keys;
      r := ResolveValues(c.attrs.Keys);
      if r != Done {
        return [r];
      }
      if hyp { EverythingDone(c, early', blocks', values.Keys); }
      return [];
    }
  }
}
