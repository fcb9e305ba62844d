/** Module bodies of the analysed language, and what running one does to the module's names.

    A run is driven by a world: it answers, one after the other, every question the program
    text leaves open (the value of a variable or call, whether an iterator has another item),
    and it knows Python's comparison operators. Wherever such a question is asked, code may run
    that rebinds or unbinds module names a function declares global; which and when is up to the
    world as well. Only runs that finish normally have a result;
    a raised exception or a loop that outlives the fuel has none. */
module PythonBodies {
  import opened Wrappers

  type Name = string

  datatype Const = NoneConst | BoolConst(b: bool) | IntConst(n: int) | StrConst(s: string)

  datatype Value =
    | Atom(c: Const)
    | Sequence(isTuple: bool, items: seq<Value>)
    | Object(id: nat, truthy: bool)

  predicate Truth(v: Value) {
    match v
    case Atom(NoneConst) => false
    case Atom(BoolConst(b)) => b
    case Atom(IntConst(n)) => n != 0
    case Atom(StrConst(s)) => s != ""
    case Sequence(_, items) => items != []
    case Object(_, truthy) => truthy
  }

  /** A value made of constants only. */
  predicate IsLiteral(v: Value) {
    match v
    case Atom(_) => true
    case Sequence(_, items) => forall i :: 0 <= i < |items| ==> IsLiteral(items[i])
    case Object(_, _) => false
  }

  datatype Comparison = Eq | NotEq | Lt | LtE | Gt | GtE | In | NotIn | Is | IsNot

  datatype Expr =
    | Constant(c: Const)
    | Load(name: Name)
    | Walrus(target: Name, value: Expr)
    | BoolOp(isAnd: bool, values: seq<Expr>)
    | Compare(left: Expr, ops: seq<Comparison>, rights: seq<Expr>)
    | IfExp(test: Expr, body: Expr, orelse: Expr)
    | Display(isTuple: bool, elts: seq<Expr>)
    | Other(children: seq<Expr>)

  datatype Target =
    | NameTarget(name: Name)
    | ItemTarget(base: Expr, index: Expr)
    | TupleTarget(elts: seq<Target>)

  datatype Stmt =
    | ExprStmt(value: Expr)
    | Assign(targets: seq<Target>, value: Expr)
    | AnnAssign(target: Target, optValue: Option<Expr>)
    | AugAssign(target: Target, value: Expr)
    | Assert(test: Expr, msg: Option<Expr>)
    | FunctionDef(name: Name, id: nat, globals: set<Name>)
    | Delete(names: seq<Name>)
    | If(test: Expr, body: seq<Stmt>, orelse: seq<Stmt>)
    | While(test: Expr, body: seq<Stmt>, orelse: seq<Stmt>)
    | For(target: Target, iter: Expr, body: seq<Stmt>, orelse: seq<Stmt>)
    | Pass
    | Break
    | Continue

  /** Which kind of statement bound a name last. */
  datatype Origin = Variable | Definition(id: nat)

  type Env = map<Name, Origin>

  /** Python's comparisons of constants; None when the comparison raises. */
  type Operators = (Comparison, Value, Value) -> Option<bool>

  /** What code run by a question does to global names: binds or, for None, unbinds them. */
  type Effect = map<Name, Option<Origin>>

  /** `rebinds` are the names that functions may rebind at all. */
  datatype World = World(answers: nat -> Value, ops: Operators, rebinds: set<Name>, effects: nat -> Effect)

  function NoEffect(): Effect {
    map[]
  }

  /** A world in which no function rebinds anything. */
  function Quiet(answers: nat -> Value, ops: Operators): World {
    World(answers, ops, {}, _ => NoEffect())
  }

  /** The names bound so far, and the next question for the world. */
  datatype State = State(env: Env, clock: nat)

  datatype Evaluated = Evaluated(v: Value, st: State)

  function Disturb(env: Env, effect: Effect, rebinds: set<Name>): Env {
    (map x | x in env && !(x in rebinds && x in effect) :: env[x]) +
    (map x | x in effect && x in rebinds && effect[x].Some? :: effect[x].value)
  }

  lemma DisturbsOnly(env: Env, effect: Effect, rebinds: set<Name>, x: Name)
    requires x !in rebinds
    ensures x in Disturb(env, effect, rebinds) <==> x in env
    ensures x in env ==> Disturb(env, effect, rebinds)[x] == env[x]
  {
  }

  function Ask(st: State, w: World): Evaluated {
    Evaluated(w.answers(st.clock), State(Disturb(st.env, w.effects(st.clock), w.rebinds), st.clock + 1))
  }

  function Bind(st: State, x: Name, origin: Origin): State {
    st.(env := st.env[x := origin])
  }

  // ---------- expressions ----------

  function Eval(e: Expr, st: State, w: World): Option<Evaluated>
    decreases e, 0
  {
    match e
    case Constant(c) => Some(Evaluated(Atom(c), st))
    case Load(_) => Some(Ask(st, w))
    case Walrus(x, value) =>
      var r := Eval(value, st, w);
      if r.None? then None else Some(Evaluated(r.value.v, Bind(r.value.st, x, Variable)))
    case BoolOp(isAnd, values) => EvalBool(isAnd, values, st, w)
    case Compare(left, ops, rights) =>
      var l := Eval(left, st, w);
      if l.None? then None else EvalChain(l.value.v, ops, rights, l.value.st, w)
    case IfExp(test, body, orelse) =>
      var t := Eval(test, st, w);
      if t.None? then None
      else if Truth(t.value.v) then Eval(body, t.value.st, w)
      else Eval(orelse, t.value.st, w)
    case Display(isTuple, elts) =>
      var r := EvalAll(elts, st, w);
      if r.None? then None else Some(Evaluated(Sequence(isTuple, r.value.0), r.value.1))
    case Other(children) =>
      var r := EvalAll(children, st, w);
      if r.None? then None else Some(Ask(r.value.1, w))
  }

  function EvalAll(es: seq<Expr>, st: State, w: World): Option<(seq<Value>, State)>
    decreases es, 1
  {
    if es == [] then Some(([], st))
    else
      var first := Eval(es[0], st, w);
      if first.None? then None
      else
        var rest := EvalAll(es[1..], first.value.st, w);
        if rest.None? then None else Some(([first.value.v] + rest.value.0, rest.value.1))
  }

  /** `and` stops at the first false value, `or` at the first true one. */
  function EvalBool(isAnd: bool, values: seq<Expr>, st: State, w: World): Option<Evaluated>
    decreases values, 1
  {
    if values == [] then None
    else
      var first := Eval(values[0], st, w);
      if first.None? || |values| == 1 || Truth(first.value.v) != isAnd then first
      else EvalBool(isAnd, values[1..], first.value.st, w)
  }

  function CompareValues(op: Comparison, left: Value, right: Value, st: State, w: World): Option<Evaluated> {
    if op.Is? || op.IsNot? || !IsLiteral(left) || !IsLiteral(right) then Some(Ask(st, w))
    else
      var r := w.ops(op, left, right);
      if r.None? then None else Some(Evaluated(Atom(BoolConst(r.value)), st))
  }

  /** A chain of comparisons stops at the first one that is false. */
  function EvalChain(left: Value, ops: seq<Comparison>, rights: seq<Expr>, st: State, w: World): Option<Evaluated>
    decreases rights, 1
  {
    if ops == [] || rights == [] then None
    else
      var right := Eval(rights[0], st, w);
      if right.None? then None
      else
        var r := CompareValues(ops[0], left, right.value.v, right.value.st, w);
        if r.None? || |ops| == 1 || |rights| == 1 || !Truth(r.value.v) then r
        else EvalChain(right.value.v, ops[1..], rights[1..], r.value.st, w)
  }

  // ---------- targets ----------

  /** Stores into a target: plain names are bound, containers and subscripts are evaluated. */
  function Store(t: Target, st: State, w: World): Option<State>
    decreases t, 0
  {
    match t
    case NameTarget(x) => Some(Bind(st, x, Variable))
    case ItemTarget(base, index) =>
      var b := Eval(base, st, w);
      if b.None? then None
      else
        var i := Eval(index, b.value.st, w);
        if i.None? then None else Some(i.value.st)
    case TupleTarget(elts) => StoreAll(elts, st, w)
  }

  function StoreAll(ts: seq<Target>, st: State, w: World): Option<State>
    decreases ts, 1
  {
    if ts == [] then Some(st)
    else
      var first := Store(ts[0], st, w);
      if first.None? then None else StoreAll(ts[1..], first.value, w)
  }

  // ---------- statements ----------

  datatype Completion = Normal | Broke | Continued

  datatype Outcome = Outcome(how: Completion, st: State)

  function Finish(st: Option<State>): Option<Outcome> {
    if st.None? then None else Some(Outcome(Normal, st.value))
  }

  function Unbind(names: seq<Name>, st: State): Option<State> {
    if names == [] then Some(st)
    else if names[0] !in st.env then None
    else Unbind(names[1..], st.(env := st.env - {names[0]}))
  }

  function Exec(s: Stmt, st: State, w: World, fuel: nat): Option<Outcome>
    decreases fuel, s, 1
  {
    match s
    case ExprStmt(value) =>
      var r := Eval(value, st, w);
      if r.None? then None else Some(Outcome(Normal, r.value.st))
    case Assign(targets, value) =>
      var r := Eval(value, st, w);
      if r.None? then None else Finish(StoreAll(targets, r.value.st, w))
    case AnnAssign(target, optValue) =>
      if target.TupleTarget? then None
      else if optValue.None? then
        if target.ItemTarget? then Finish(Store(target, st, w)) else Some(Outcome(Normal, st))
      else
        var r := Eval(optValue.value, st, w);
        if r.None? then None else Finish(Store(target, r.value.st, w))
    case AugAssign(target, value) =>
      if target.NameTarget? then
        var r := Eval(value, st, w);
        if r.None? then None else Finish(Store(target, r.value.st, w))
      else
        var t := Store(target, st, w);
        if t.None? then None
        else
          var r := Eval(value, t.value, w);
          if r.None? then None else Some(Outcome(Normal, r.value.st))
    case Assert(test, _) =>
      var r := Eval(test, st, w);
      if r.None? || !Truth(r.value.v) then None else Some(Outcome(Normal, r.value.st))
    case FunctionDef(name, id, _) => Some(Outcome(Normal, Bind(st, name, Definition(id))))
    case Delete(names) => Finish(Unbind(names, st))
    case If(test, body, orelse) =>
      var r := Eval(test, st, w);
      if r.None? then None
      else if Truth(r.value.v) then ExecAll(body, r.value.st, w, fuel)
      else ExecAll(orelse, r.value.st, w, fuel)
    case While(_, _, _) => RunWhile(s, st, w, fuel)
    case For(_, iter, _, _) =>
      var r := Eval(iter, st, w);
      if r.None? then None else RunFor(s, r.value.v, r.value.st, w, fuel)
    case Pass => Some(Outcome(Normal, st))
    case Break => Some(Outcome(Broke, st))
    case Continue => Some(Outcome(Continued, st))
  }

  function ExecAll(ss: seq<Stmt>, st: State, w: World, fuel: nat): Option<Outcome>
    decreases fuel, ss, 2
  {
    if ss == [] then Some(Outcome(Normal, st))
    else
      var first := Exec(ss[0], st, w, fuel);
      if first.None? || first.value.how != Normal then first
      else ExecAll(ss[1..], first.value.st, w, fuel)
  }

  function RunWhile(s: Stmt, st: State, w: World, fuel: nat): Option<Outcome>
    requires s.While?
    decreases fuel, s, 0
  {
    if fuel == 0 then None
    else
      var t := Eval(s.test, st, w);
      if t.None? then None
      else if !Truth(t.value.v) then ExecAll(s.orelse, t.value.st, w, fuel - 1)
      else
        var b := ExecAll(s.body, t.value.st, w, fuel - 1);
        if b.None? then None
        else if b.value.how == Broke then Some(Outcome(Normal, b.value.st))
        else RunWhile(s, b.value.st, w, fuel - 1)
  }

  /** Nothing comes out of an empty sequence; for anything else the world decides. */
  function RunFor(s: Stmt, v: Value, st: State, w: World, fuel: nat): Option<Outcome>
    requires s.For?
    decreases fuel, s, 0
  {
    if fuel == 0 then None
    else
      var more := Ask(st, w);
      if (v.Sequence? && v.items == []) || !Truth(more.v) then ExecAll(s.orelse, more.st, w, fuel - 1)
      else
        var bound := Store(s.target, more.st, w);
        if bound.None? then None
        else
          var b := ExecAll(s.body, bound.value, w, fuel - 1);
          if b.None? then None
          else if b.value.how == Broke then Some(Outcome(Normal, b.value.st))
          else RunFor(s, v, b.value.st, w, fuel - 1)
  }
}
