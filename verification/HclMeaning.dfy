/**
 What the values of a file are, name by name: the default or the environment for
 a variable, the option for a built-in variable, the expression for everything
 else. Stated about every solution, and so about every run without errors.
 */
module HclMeaning {
  import opened Common
  import Texts
  import opened Graphs
  import opened HclModel
  import opened HclSound
  import opened HclRules
  import opened HclParser

  /** Block `b` has the attribute that `r` names. */
  predicate Names(c: Config, r: Ref, b: nat) {
    r.AttrRef? && IsAttr(c, b, r.attr) && c.blocks[b].typ == r.typ && c.blocks[b].lbl == r.lbl
  }

  /** `i` shows for the reference `r` what `s` gives to the value or the block attribute of that name. */
  ghost predicate SeesRef(c: Config, s: map<Key, Val>, i: Inputs, r: Ref) {
    match r
    case VarRef(n) => if IsValue(c, n) then r in i.values && Value(n) in s && i.values[r] == s[Value(n)] else r !in i.values
    case AttrRef(_, _, a) =>
      (r in i.values ==> exists b: nat :: Names(c, r, b)) &&
      forall b: nat :: Names(c, r, b) ==> r in i.values && Attr(b, a) in s && i.values[r] == s[Attr(b, a)]
  }

  /** The standard library comes first, then the functions of the file. */
  ghost predicate SeesCall(c: Config, s: map<Key, Val>, i: Inputs, f: Name) {
    if f in c.stdlib then f in i.functions && i.functions[f] == c.stdlib[f]
    else if f in c.funcs then f in i.functions && Function(f) in s && i.functions[f] == s[Function(f)]
    else f !in i.functions
  }

  /** `i` is what the expression `e` sees of `s`: everything it names and nothing else. */
  ghost predicate Sees(c: Config, s: map<Key, Val>, e: Expr, exclude: set<Name>, i: Inputs) {
    && (forall r :: r in i.values ==> r in e.refs && r.Root() !in exclude)
    && (forall r :: r in e.refs && r.Root() !in exclude ==> SeesRef(c, s, i, r))
    && (forall f :: f in i.functions ==> f in e.calls)
    && (forall f :: f in e.calls ==> SeesCall(c, s, i, f))
  }

  lemma RefSeen(c: Config, s: map<Key, Val>, e: Expr, exclude: set<Name>, r: Ref)
    requires UniqueLabels(c) && s.Keys == Keys(c) && r in e.refs && r.Root() !in exclude
    ensures SeesRef(c, s, InputsOf(c, s, e, exclude), r)
  {
    KeysAreKeys(c);
    RefKeyIsRefKeys(c, r);
    if r.AttrRef? {
      var i := InputsOf(c, s, e, exclude);
      forall b: nat | Names(c, r, b) ensures r in i.values && Attr(b, r.attr) in s && i.values[r] == s[Attr(b, r.attr)] {
        assert Attr(b, r.attr) in RefKeys(c, r);
      }
      if r in i.values {
        assert RefKey(c, r).value in RefKeys(c, r);
        assert Names(c, r, RefKey(c, r).value.block);
      }
    }
  }

  /** What an equation reads is what its expression sees. */
  lemma InputsSeen(c: Config, s: map<Key, Val>, e: Expr, exclude: set<Name>)
    requires UniqueLabels(c) && s.Keys == Keys(c)
    ensures Sees(c, s, e, exclude, InputsOf(c, s, e, exclude))
  {
    var i := InputsOf(c, s, e, exclude);
    KeysAreKeys(c);
    forall r | r in e.refs && r.Root() !in exclude ensures SeesRef(c, s, i, r) {
      RefSeen(c, s, e, exclude, r);
    }
    forall f | f in e.calls ensures SeesCall(c, s, i, f) {
      assert IsKey(c, Function(f)) <==> IsFunction(c, f);
    }
  }

  /** There is only one thing to see. */
  lemma SeenOnce(c: Config, s: map<Key, Val>, e: Expr, exclude: set<Name>, i: Inputs, j: Inputs)
    requires Sees(c, s, e, exclude, i) && Sees(c, s, e, exclude, j)
    ensures i == j
  {
    forall r | r in e.refs && r.Root() !in exclude
      ensures (r in i.values <==> r in j.values) && (r in i.values ==> i.values[r] == j.values[r])
    {
      assert SeesRef(c, s, i, r) && SeesRef(c, s, j, r);
    }
    forall f | f in e.calls
      ensures (f in i.functions <==> f in j.functions) && (f in i.functions ==> i.functions[f] == j.functions[f])
    {
      assert SeesCall(c, s, i, f) && SeesCall(c, s, j, f);
    }
    assert i.values == j.values && i.functions == j.functions;
  }

  lemma EquationHolds(c: Config, s: map<Key, Val>, k: Key)
    requires Solution(c, s) && IsKey(c, k)
    ensures k in s && Rhs(c, s, k) == Some(s[k])
  {
    KeysAreKeys(c);
    assert Holds(c, s, k);
  }

  lemma EquationSees(c: Config, s: map<Key, Val>, k: Key, e: Expr, i: Inputs)
    requires UniqueLabels(c) && Solution(c, s) && IsKey(c, k) && ExprOf(c, k) == Some(e) && Sees(c, s, e, ExcludeOf(c, k), i)
    ensures k in s && Evaluate(c, k, i) == Some(s[k])
  {
    EquationHolds(c, s, k);
    InputsSeen(c, s, e, ExcludeOf(c, k));
    SeenOnce(c, s, e, ExcludeOf(c, k), i, InputsOf(c, s, e, ExcludeOf(c, k)));
  }

  /**
   A global attribute, or a variable with a default: what its expression gives, unless
   it is a variable that the environment sets. Then it is the text of the environment
   for a string or an unknown type, what the text says for a truth value or a number,
   and no value at all for other types.
   */
  lemma GivenValue(c: Config, s: map<Key, Val>, n: Name, e: Expr, i: Inputs)
    requires UniqueLabels(c) && Solution(c, s) && Sees(c, s, e, {}, i)
    requires if n in c.attrs then e == c.attrs[n] else n in c.vars && n !in c.optVars && c.vars[n].default == Some(e)
    ensures Value(n) in s && e.value(i).Some?
    ensures n !in c.vars || n !in c.env ==> s[Value(n)] == e.value(i).value
    ensures n in c.vars && n in c.env ==>
              match e.value(i).value
              case StringVal(_) => s[Value(n)] == StringVal(c.env[n])
              case DynamicVal => s[Value(n)] == StringVal(c.env[n])
              case BoolVal(_) => s[Value(n)].BoolVal? && Texts.ParseBool(c.env[n]) == Some(s[Value(n)].b)
              case NumberVal(_) => s[Value(n)].NumberVal? && c.parseNumber(c.env[n]) == Some(s[Value(n)].n)
              case OtherVal(_) => false
  {
    EquationSees(c, s, Value(n), e, i);
  }

  /** A variable without default is the text of the environment, else empty. */
  lemma NoDefault(c: Config, s: map<Key, Val>, n: Name)
    requires Solution(c, s) && n in c.vars && n !in c.attrs && n !in c.optVars && c.vars[n].default.None?
    ensures Value(n) in s
    ensures n in c.env ==> s[Value(n)] == StringVal(c.env[n])
    ensures n !in c.env ==> s[Value(n)] == StringVal("")
  {
    EquationHolds(c, s, Value(n));
  }

  /** A built-in variable has the value of its option, whatever the environment holds. */
  lemma BuiltinValue(c: Config, s: map<Key, Val>, n: Name)
    requires Solution(c, s) && n in c.optVars && n !in c.attrs
    ensures Value(n) in s && s[Value(n)] == StringVal(c.optVars[n])
  {
    EquationHolds(c, s, Value(n));
  }

  /** An attribute of a block is what its expression gives. */
  lemma BlockValue(c: Config, s: map<Key, Val>, b: nat, a: Name, i: Inputs)
    requires UniqueLabels(c) && Solution(c, s) && IsAttr(c, b, a) && Sees(c, s, c.blocks[b].attrs[a], {}, i)
    ensures Attr(b, a) in s && c.blocks[b].attrs[a].value(i) == Some(s[Attr(b, a)])
  {
    EquationSees(c, s, Attr(b, a), c.blocks[b].attrs[a], i);
  }

  /** A function means what its result gives, with its parameters left open. */
  lemma FunctionValue(c: Config, s: map<Key, Val>, f: Name, e: Expr, i: Inputs)
    requires UniqueLabels(c) && Solution(c, s) && f in c.funcs && f !in c.stdlib
    requires c.funcs[f].result == Some(e) && Sees(c, s, e, c.funcs[f].Params(), i)
    ensures Function(f) in s && s[Function(f)] == c.funcs[f].meaning(i)
    ensures c.funcs[f].params.Some? && "" !in c.funcs[f].params.value && c.funcs[f].variadic != Some("")
  {
    EquationSees(c, s, Function(f), e, i);
  }

  /**
   A whole run on a new parser: without errors its values are the solution of the
   admitted file, so that all of the above holds of them.
   */
  method ParseFile(raw: Config, ghost early: set<Key>) returns (diags: seq<Outcome>, values: map<Key, Val>)
    ensures var c := Admit(raw);
            AllDefined(c) && Early(c, early) && UniqueLabels(c) ==>
              (diags == [] <==> Acyclic(Edge(c)) && exists s :: Solution(c, s)) && (diags == [] ==> Solution(c, values))
  {
    var p := new Parser(raw, early);
    diags := p.Parse();
    values := p.values;
    if AllDefined(p.c) && Early(p.c, early) { RunDecides(p.c, p.log, p.values, diags); }
  }
}
