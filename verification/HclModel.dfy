/**
 What a bake definition file means, independently of the order in which the
 parser looks at it: every variable, global attribute, function and block
 attribute has one defining equation, and the file means the solution of all of
 them together.
 */
module HclModel {
  import opened Common
  import Texts
  import opened Graphs

  type Name = string

  /** Values the resolver looks at; everything else is kept by identity. */
  datatype Val =
    | BoolVal(b: bool)
    | StringVal(s: string)
    | NumberVal(n: real)
    | DynamicVal
    | OtherVal(id: int)

  /** A variable traversal: a plain name, or `type.name.attr`. */
  datatype Ref =
    | VarRef(name: Name)
    | AttrRef(typ: Name, lbl: Name, attr: Name)
  {
    function Root(): Name {
      if VarRef? then name else typ
    }
  }

  /** What the evaluation of an expression can see. */
  datatype Inputs = Inputs(values: map<Ref, Val>, functions: map<Name, Val>)

  /** The functions an expression calls, the names it reads, and its value. */
  datatype Expr = Expr(calls: seq<Name>, refs: seq<Ref>, value: Inputs -> Option<Val>)

  datatype VarDef = VarDef(default: Option<Expr>)

  /** An empty parameter name stands for a parameter that is no identifier. */
  datatype FuncDef = FuncDef(params: Option<seq<Name>>, variadic: Option<Name>, result: Option<Expr>,
                             meaning: Inputs -> Val)
  {
    function Params(): (r: set<Name>)
      ensures forall n :: n in r <==> (params.Some? && n in params.value) || variadic == Some(n)
    {
      (if params.Some? then Elems(params.value) else {}) +
      (if variadic.Some? then {variadic.value} else {})
    }

    predicate WellFormed() {
      result.Some? && params.Some? && "" !in Params()
    }
  }

  datatype Block = Block(typ: Name, lbl: Name, attrs: map<Name, Expr>)

  datatype Config = Config(
    optVars: map<Name, string>,
    env: map<Name, string>,
    parseNumber: string -> Option<real>,
    stdlib: map<Name, Val>,
    blockTypes: set<Name>,
    vars: map<Name, VarDef>,
    attrs: map<Name, Expr>,
    funcs: map<Name, FuncDef>,
    blocks: seq<Block>)

  /** One defining equation each. */
  datatype Key =
    | Value(name: Name)
    | Function(name: Name)
    | Attr(block: nat, attr: Name)

  /** Parse drops definitions whose name is a block type or a built-in variable. */
  function Admit(c: Config): (r: Config)
    ensures forall n :: n in r.vars || n in r.attrs ==> n !in r.blockTypes && n !in r.optVars
    ensures forall n :: n in r.vars <==> n in c.vars && n !in c.blockTypes && n !in c.optVars
    ensures forall n :: n in r.vars ==> r.vars[n] == c.vars[n]
    ensures forall n :: n in r.funcs <==> n in c.funcs && n !in c.blockTypes && n !in c.optVars
    ensures forall n :: n in r.funcs ==> r.funcs[n] == c.funcs[n]
    ensures forall n :: n in r.attrs <==> n in c.attrs && n !in c.blockTypes && n !in c.optVars && n != "function"
    ensures forall n :: n in r.attrs ==> r.attrs[n] == c.attrs[n]
    ensures r.blocks == c.blocks && r.optVars == c.optVars && r.env == c.env && r.stdlib == c.stdlib && r.blockTypes == c.blockTypes
    ensures r.parseNumber == c.parseNumber
  {
    var reserved := c.blockTypes + c.optVars.Keys;
    c.(vars := map n | n in c.vars && n !in reserved :: c.vars[n],
       funcs := map n | n in c.funcs && n !in reserved :: c.funcs[n],
       attrs := map n | n in c.attrs && n !in reserved && n != "function" :: c.attrs[n])
  }

  predicate IsValue(c: Config, n: Name) {
    n in c.vars || n in c.attrs || n in c.optVars
  }

  /** A function that is already in the standard library is never looked up. */
  predicate IsFunction(c: Config, n: Name) {
    n in c.funcs && n !in c.stdlib
  }

  predicate IsAttr(c: Config, b: nat, a: Name) {
    b < |c.blocks| && a in c.blocks[b].attrs
  }

  /** All keys that have an equation. */
  ghost function Keys(c: Config): set<Key> {
    (set n | n in c.vars.Keys + c.attrs.Keys + c.optVars.Keys :: Value(n)) +
    (set n | n in c.funcs && n !in c.stdlib :: Function(n)) +
    (set b: nat, a | 0 <= b < |c.blocks| && a in c.blocks[b].attrs :: Attr(b, a))
  }

  predicate IsKey(c: Config, k: Key) {
    match k
    case Value(n) => IsValue(c, n)
    case Function(n) => IsFunction(c, n)
    case Attr(b, a) => IsAttr(c, b, a)
  }

  lemma KeysAreKeys(c: Config)
    ensures forall k :: k in Keys(c) <==> IsKey(c, k)
  {
  }

  /** Global attributes win over built-in variables, those over variable defaults. */
  function ValueExpr(c: Config, n: Name): Option<Expr>
    requires IsValue(c, n)
  {
    if n in c.attrs then Some(c.attrs[n])
    else if n in c.optVars then None
    else c.vars[n].default
  }

  function RefKeys(c: Config, r: Ref): set<Key> {
    match r
    case VarRef(n) => if IsValue(c, n) then {Value(n)} else {}
    case AttrRef(t, l, a) =>
      set b: nat | 0 <= b < |c.blocks| && c.blocks[b].typ == t && c.blocks[b].lbl == l && a in c.blocks[b].attrs :: Attr(b, a)
  }

  ghost function ExprDeps(c: Config, e: Expr, exclude: set<Name>): set<Key> {
    (set f | f in e.calls && IsFunction(c, f) :: Function(f)) +
    (set r, k | r in e.refs && r.Root() !in exclude && k in RefKeys(c, r) :: k)
  }

  /** The expression behind a key, if it has one. */
  function ExprOf(c: Config, k: Key): Option<Expr>
    requires IsKey(c, k)
  {
    match k
    case Value(n) => ValueExpr(c, n)
    case Function(n) => c.funcs[n].result
    case Attr(b, a) => Some(c.blocks[b].attrs[a])
  }

  /** Names that the expression behind a key binds itself. */
  function ExcludeOf(c: Config, k: Key): set<Name>
    requires IsKey(c, k)
  {
    if k.Function? then c.funcs[k.name].Params() else {}
  }

  /** The keys the equation of `k` reads. */
  ghost function Deps(c: Config, k: Key): set<Key> {
    if IsKey(c, k) && ExprOf(c, k).Some? then ExprDeps(c, ExprOf(c, k).value, ExcludeOf(c, k)) else {}
  }

  ghost function Edge(c: Config): (Key, Key) -> bool {
    (a, b) => b in Deps(c, a)
  }

  /** The key whose value a reference reads, when block labels are unique. */
  function RefKey(c: Config, r: Ref): Option<Key> {
    match r
    case VarRef(n) => if IsValue(c, n) then Some(Value(n)) else None
    case AttrRef(t, l, a) =>
      var bs := BlocksNamed(c, t, l, 0);
      if bs != [] && bs[0] in bs && a in c.blocks[bs[0]].attrs then Some(Attr(bs[0], a)) else None
  }

  /** The blocks with this type and label, in file order. */
  function BlocksNamed(c: Config, t: Name, l: Name, from: nat): (bs: seq<nat>)
    requires from <= |c.blocks|
    ensures forall b :: b in bs <==> from <= b < |c.blocks| && c.blocks[b].typ == t && c.blocks[b].lbl == l
    decreases |c.blocks| - from
  {
    if from == |c.blocks| then []
    else if c.blocks[from].typ == t && c.blocks[from].lbl == l then [from] + BlocksNamed(c, t, l, from + 1)
    else BlocksNamed(c, t, l, from + 1)
  }

  function InputsOf(c: Config, env: map<Key, Val>, e: Expr, exclude: set<Name>): Inputs {
    Inputs(ValuesOf(c, env, e, exclude), FunctionsOf(c, env, e))
  }

  predicate Readable(c: Config, env: map<Key, Val>, r: Ref) {
    RefKey(c, r).Some? && RefKey(c, r).value in env
  }

  function ValuesOf(c: Config, env: map<Key, Val>, e: Expr, exclude: set<Name>): map<Ref, Val> {
    map r | r in e.refs && r.Root() !in exclude && Readable(c, env, r) :: env[RefKey(c, r).value]
  }

  function FunctionsOf(c: Config, env: map<Key, Val>, e: Expr): map<Name, Val> {
    map f | f in e.calls && (f in c.stdlib || Function(f) in env) :: if f in c.stdlib then c.stdlib[f] else env[Function(f)]
  }

  /** A variable (not a plain attribute) is overridden by the environment, by the type of its value. */
  function Override(c: Config, n: Name, v: Val): Option<Val> {
    if n in c.vars && n in c.env then
      match v
      case BoolVal(_) => (match Texts.ParseBool(c.env[n]) case Some(b) => Some(BoolVal(b)) case None => None)
      case StringVal(_) => Some(StringVal(c.env[n]))
      case DynamicVal => Some(StringVal(c.env[n]))
      case NumberVal(_) => (match c.parseNumber(c.env[n]) case Some(x) => Some(NumberVal(x)) case None => None)
      case OtherVal(_) => None
    else Some(v)
  }

  /** A value without expression: the built-in variable, else the environment, else "". */
  function Plain(c: Config, n: Name): Val {
    StringVal(if n in c.optVars then c.optVars[n] else if n in c.env then c.env[n] else "")
  }

  /** The value of the expression behind `k`, given what it reads; None when it cannot be evaluated. */
  function Evaluate(c: Config, k: Key, i: Inputs): Option<Val>
    requires IsKey(c, k) && ExprOf(c, k).Some?
  {
    match k
    case Value(n) =>
      (match ExprOf(c, k).value.value(i)
       case None => None
       case Some(v) => Override(c, n, v))
    case Function(n) => if c.funcs[n].WellFormed() then Some(c.funcs[n].meaning(i)) else None
    case Attr(b, a) => ExprOf(c, k).value.value(i)
  }

  /** The right-hand side of the equation of `k`; None when it cannot be evaluated. */
  function Rhs(c: Config, env: map<Key, Val>, k: Key): Option<Val>
    requires IsKey(c, k)
  {
    if ExprOf(c, k).Some? then Evaluate(c, k, InputsOf(c, env, ExprOf(c, k).value, ExcludeOf(c, k)))
    else if k.Value? then Some(Plain(c, k.name))
    else None
  }

  ghost predicate Holds(c: Config, env: map<Key, Val>, k: Key) {
    k in env && IsKey(c, k) && Rhs(c, env, k) == Some(env[k])
  }

  /** `env` gives a value to exactly the keys, and every equation holds. */
  ghost predicate Solution(c: Config, env: map<Key, Val>) {
    env.Keys == Keys(c) && forall k :: k in Keys(c) ==> Holds(c, env, k)
  }

  /** No two blocks carry the same type and label. */
  ghost predicate UniqueLabels(c: Config) {
    forall b, d :: 0 <= b < d < |c.blocks| ==> c.blocks[b].typ != c.blocks[d].typ || c.blocks[b].lbl != c.blocks[d].lbl
  }

  lemma RefKeyIsRefKeys(c: Config, r: Ref)
    requires UniqueLabels(c)
    ensures RefKeys(c, r) == if RefKey(c, r).Some? then {RefKey(c, r).value} else {}
  {
    if r.AttrRef? {
      var bs := BlocksNamed(c, r.typ, r.lbl, 0);
      assert forall b :: b in bs ==> 0 <= b < |c.blocks|;
      if bs != [] {
        assert bs[0] in bs;
        assert forall b :: b in bs ==> b == bs[0];
      }
    }
  }

  /** An equation does not notice values outside its dependencies. */
  lemma RhsLocal(c: Config, e1: map<Key, Val>, e2: map<Key, Val>, k: Key)
    requires UniqueLabels(c) && IsKey(c, k)
    requires forall d :: d in Deps(c, k) ==> d in e1 && d in e2 && e1[d] == e2[d]
    requires forall d :: d in e1 || d in e2 ==> IsKey(c, d)
    ensures Rhs(c, e1, k) == Rhs(c, e2, k)
  {
    if ExprOf(c, k).Some? {
      InputsLocal(c, e1, e2, ExprOf(c, k).value, ExcludeOf(c, k));
    }
  }

  lemma InputsLocal(c: Config, e1: map<Key, Val>, e2: map<Key, Val>, e: Expr, exclude: set<Name>)
    requires UniqueLabels(c)
    requires forall d :: d in ExprDeps(c, e, exclude) ==> d in e1 && d in e2 && e1[d] == e2[d]
    requires forall d :: d in e1 || d in e2 ==> IsKey(c, d)
    ensures InputsOf(c, e1, e, exclude) == InputsOf(c, e2, e, exclude)
  {
    ValuesLocal(c, e1, e2, e, exclude);
    FunctionsLocal(c, e1, e2, e, exclude);
  }

  lemma RefInDeps(c: Config, e: Expr, exclude: set<Name>, r: Ref)
    requires UniqueLabels(c) && r in e.refs && r.Root() !in exclude && RefKey(c, r).Some?
    ensures RefKey(c, r).value in ExprDeps(c, e, exclude)
  {
    RefKeyIsRefKeys(c, r);
    assert RefKey(c, r).value in RefKeys(c, r);
  }

  lemma ValuesLocal(c: Config, e1: map<Key, Val>, e2: map<Key, Val>, e: Expr, exclude: set<Name>)
    requires UniqueLabels(c)
    requires forall d :: d in ExprDeps(c, e, exclude) ==> d in e1 && d in e2 && e1[d] == e2[d]
    ensures ValuesOf(c, e1, e, exclude) == ValuesOf(c, e2, e, exclude)
  {
    forall r | r in e.refs && r.Root() !in exclude && RefKey(c, r).Some?
      ensures Readable(c, e1, r) && Readable(c, e2, r) && e1[RefKey(c, r).value] == e2[RefKey(c, r).value]
    {
      RefInDeps(c, e, exclude, r);
    }
  }

  lemma FunctionsLocal(c: Config, e1: map<Key, Val>, e2: map<Key, Val>, e: Expr, exclude: set<Name>)
    requires forall d :: d in ExprDeps(c, e, exclude) ==> d in e1 && d in e2 && e1[d] == e2[d]
    requires forall d :: d in e1 || d in e2 ==> IsKey(c, d)
    ensures FunctionsOf(c, e1, e) == FunctionsOf(c, e2, e)
  {
    forall f | f in e.calls && f !in c.stdlib
      ensures Function(f) in e1 <==> Function(f) in e2
      ensures Function(f) in e1 ==> e1[Function(f)] == e2[Function(f)]
    {
      if IsFunction(c, f) { assert Function(f) in ExprDeps(c, e, exclude); }
    }
  }

  ghost predicate Agree(e1: map<Key, Val>, e2: map<Key, Val>, k: Key) {
    k in e1 && k in e2 && e1[k] == e2[k]
  }

  /**
   Values computed along an ordered sequence of keys are forced: they agree with
   every solution of the whole file.
   */
  lemma {:induction false} Forced(c: Config, order: seq<Key>, env: map<Key, Val>, sol: map<Key, Val>, i: nat)
    requires UniqueLabels(c) && Solution(c, sol)
    requires Ordered(Edge(c), order) && i < |order|
    requires forall k :: k in order ==> Holds(c, env, k)
    requires forall d :: d in env ==> IsKey(c, d)
    ensures Agree(env, sol, order[i])
    decreases i
  {
    forall d | d in Deps(c, order[i]) ensures Agree(env, sol, d) {
      assert Edge(c)(order[i], d);
      var j :| 0 <= j < i && order[j] == d;
      Forced(c, order, env, sol, j);
    }
    ForcedStep(c, env, sol, order[i]);
  }

  lemma ForcedStep(c: Config, env: map<Key, Val>, sol: map<Key, Val>, k: Key)
    requires UniqueLabels(c) && Solution(c, sol) && Holds(c, env, k)
    requires forall d :: d in env ==> IsKey(c, d)
    requires forall d :: d in Deps(c, k) ==> Agree(env, sol, d)
    ensures Agree(env, sol, k)
  {
    KeysAreKeys(c);
    assert Holds(c, sol, k);
    RhsLocal(c, env, sol, k);
  }

  /** A file without cyclic references has at most one meaning. */
  lemma SolutionUnique(c: Config, order: seq<Key>, s1: map<Key, Val>, s2: map<Key, Val>)
    requires UniqueLabels(c) && Solution(c, s1) && Solution(c, s2)
    requires Ordered(Edge(c), order) && Elems(order) == Keys(c)
    ensures s1 == s2
  {
    KeysAreKeys(c);
    forall k | k in Keys(c) ensures s1[k] == s2[k] {
      assert k in Elems(order);
      var i :| 0 <= i < |order| && order[i] == k;
      Forced(c, order, s1, s2, i);
    }
  }
}
