/** The analyzer's view of a module body: a flat list of binding events, and the table of
    definite and uncertain names it folds to. */
module BindingEvents {
  import opened Wrappers
  import opened PythonBodies

  // ---------- constants ----------

  function LiteralValue(e: Expr): Option<Value>
    decreases e, 0
  {
    match e
    case Constant(c) => Some(Atom(c))
    case Display(isTuple, elts) =>
      var vs := LiteralValues(elts);
      if vs.None? then None else Some(Sequence(isTuple, vs.value))
    case _ => None
  }

  function LiteralValues(es: seq<Expr>): Option<seq<Value>>
    decreases es, 1
  {
    if es == [] then Some([])
    else
      var first, rest := LiteralValue(es[0]), LiteralValues(es[1..]);
      if first.None? || rest.None? then None else Some([first.value] + rest.value)
  }

  function LiteralTruth(e: Expr): Option<bool> {
    var v := LiteralValue(e);
    if v.Some? then Some(Truth(v.value))
    else if e.Display? then Some(e.elts != [])
    else None
  }

  /** What is known of a comparison before it runs. */
  function ComparisonTruth(op: Comparison, left: Expr, right: Expr, ops: Operators): Option<bool> {
    var first, second := LiteralValue(left), LiteralValue(right);
    if op.Is? || op.IsNot? || first.None? || second.None? then None
    else ops(op, first.value, second.value)
  }

  // ---------- events ----------

  datatype Kind = Assignment | Augmented | Uncertain | Defined(id: nat)

  datatype Event = Event(name: Name, kind: Kind)

  function Mark(x: Name, definite: bool): Event {
    Event(x, if definite then Assignment else Uncertain)
  }

  function ExprEvents(e: Expr, definite: bool, ops: Operators): seq<Event>
    decreases e, 0
  {
    match e
    case Constant(_) => []
    case Load(_) => []
    case Walrus(x, value) => ExprEvents(value, definite, ops) + [Mark(x, definite)]
    case BoolOp(isAnd, values) => BoolEvents(isAnd, values, definite, ops)
    case Compare(left, operators, rights) =>
      ExprEvents(left, definite, ops) + ChainEvents(left, operators, rights, definite, ops)
    case IfExp(test, body, orelse) =>
      ExprEvents(test, definite, ops) +
      (match LiteralTruth(test)
       case Some(truth) => ExprEvents(if truth then body else orelse, definite, ops)
       case None => ExprEvents(body, false, ops) + ExprEvents(orelse, false, ops))
    case Display(_, elts) => AllEvents(elts, definite, ops)
    case Other(children) => AllEvents(children, definite, ops)
  }

  function AllEvents(es: seq<Expr>, definite: bool, ops: Operators): seq<Event>
    decreases es, 1
  {
    if es == [] then [] else ExprEvents(es[0], definite, ops) + AllEvents(es[1..], definite, ops)
  }

  function BoolEvents(isAnd: bool, values: seq<Expr>, definite: bool, ops: Operators): seq<Event>
    decreases values, 1
  {
    if values == [] then []
    else
      var truth := LiteralTruth(values[0]);
      ExprEvents(values[0], definite, ops) +
      if truth == Some(!isAnd) then [] else BoolEvents(isAnd, values[1..], definite && truth.Some?, ops)
  }

  function ChainEvents(left: Expr, operators: seq<Comparison>, rights: seq<Expr>, definite: bool, ops: Operators): seq<Event>
    decreases rights, 1
  {
    if operators == [] || rights == [] then []
    else
      var truth := ComparisonTruth(operators[0], left, rights[0], ops);
      ExprEvents(rights[0], definite, ops) +
      if truth == Some(false) then []
      else ChainEvents(rights[0], operators[1..], rights[1..], definite && truth.Some?, ops)
  }

  /** The expressions inside a target, visited before the statement's own bindings. */
  function TargetEvents(t: Target, ops: Operators): seq<Event>
    decreases t, 0
  {
    match t
    case NameTarget(_) => []
    case ItemTarget(base, index) => ExprEvents(base, true, ops) + ExprEvents(index, true, ops)
    case TupleTarget(elts) => TargetsEvents(elts, ops)
  }

  function TargetsEvents(ts: seq<Target>, ops: Operators): seq<Event>
    decreases ts, 1
  {
    if ts == [] then [] else TargetEvents(ts[0], ops) + TargetsEvents(ts[1..], ops)
  }

  function EagerEvents(s: Stmt, ops: Operators): seq<Event> {
    match s
    case ExprStmt(value) => ExprEvents(value, true, ops)
    case Assign(targets, value) => TargetsEvents(targets, ops) + ExprEvents(value, true, ops)
    case AnnAssign(target, None) => TargetEvents(target, ops)
    case AnnAssign(target, Some(value)) => TargetEvents(target, ops) + ExprEvents(value, true, ops)
    case AugAssign(target, value) => TargetEvents(target, ops) + ExprEvents(value, true, ops)
    case Assert(test, msg) =>
      ExprEvents(test, true, ops) +
      if msg.Some? && LiteralTruth(test) != Some(true) then ExprEvents(msg.value, false, ops) else []
    case If(test, _, _) => ExprEvents(test, true, ops)
    case While(test, _, _) => ExprEvents(test, true, ops)
    case For(target, iter, _, _) => TargetEvents(target, ops) + ExprEvents(iter, true, ops)
    case _ => []
  }

  // ---------- names stored somewhere in a piece of syntax ----------

  function ExprNames(e: Expr): seq<Name>
    decreases e, 0
  {
    match e
    case Constant(_) => []
    case Load(_) => []
    case Walrus(x, value) => [x] + ExprNames(value)
    case BoolOp(_, values) => AllNames(values)
    case Compare(left, _, rights) => ExprNames(left) + AllNames(rights)
    case IfExp(test, body, orelse) => ExprNames(test) + ExprNames(body) + ExprNames(orelse)
    case Display(_, elts) => AllNames(elts)
    case Other(children) => AllNames(children)
  }

  function AllNames(es: seq<Expr>): seq<Name>
    decreases es, 1
  {
    if es == [] then [] else ExprNames(es[0]) + AllNames(es[1..])
  }

  function TargetNames(t: Target): seq<Name>
    decreases t, 0
  {
    match t
    case NameTarget(x) => [x]
    case ItemTarget(base, index) => ExprNames(base) + ExprNames(index)
    case TupleTarget(elts) => TargetsNames(elts)
  }

  function TargetsNames(ts: seq<Target>): seq<Name>
    decreases ts, 1
  {
    if ts == [] then [] else TargetNames(ts[0]) + TargetsNames(ts[1..])
  }

  /** Everything a nested statement may bind or delete, wherever it stands. */
  function CollectedNames(s: Stmt): seq<Name>
    decreases s, 0
  {
    match s
    case ExprStmt(value) => ExprNames(value)
    case Assign(targets, value) => TargetsNames(targets) + ExprNames(value)
    case AnnAssign(target, optValue) => TargetNames(target) + (if optValue.Some? then ExprNames(optValue.value) else [])
    case AugAssign(target, value) => TargetNames(target) + ExprNames(value)
    case Assert(test, msg) => ExprNames(test) + (if msg.Some? then ExprNames(msg.value) else [])
    case FunctionDef(name, _, _) => [name]
    case Delete(names) => names
    case If(test, body, orelse) => ExprNames(test) + CollectedFrom(body) + CollectedFrom(orelse)
    case While(test, body, orelse) => ExprNames(test) + CollectedFrom(body) + CollectedFrom(orelse)
    case For(target, iter, body, orelse) =>
      TargetNames(target) + ExprNames(iter) + CollectedFrom(body) + CollectedFrom(orelse)
    case _ => []
  }

  function CollectedFrom(ss: seq<Stmt>): seq<Name>
    decreases ss, 1
  {
    if ss == [] then [] else CollectedNames(ss[0]) + CollectedFrom(ss[1..])
  }

  /** The names a compound statement leaves uncertain: its test or iterator has been visited already. */
  function UncertainNames(s: Stmt): seq<Name> {
    match s
    case If(_, body, orelse) => CollectedFrom(body) + CollectedFrom(orelse)
    case While(_, body, orelse) => CollectedFrom(body) + CollectedFrom(orelse)
    case For(target, _, body, orelse) => TargetNames(target) + CollectedFrom(body) + CollectedFrom(orelse)
    case _ => CollectedNames(s)
  }

  function Events(names: seq<Name>, kind: Kind): seq<Event> {
    if names == [] then [] else [Event(names[0], kind)] + Events(names[1..], kind)
  }

  predicate IteratesNothing(iter: Expr) {
    var v := LiteralValue(iter);
    v.Some? && v.value.Sequence? && v.value.items == []
  }

  function StmtEvents(s: Stmt, ops: Operators): seq<Event>
    decreases s, 0
  {
    EagerEvents(s, ops) +
    match s
    case Assign(targets, _) => Events(TargetsNames(targets), Assignment)
    case AnnAssign(target, optValue) => if optValue.Some? then Events(TargetNames(target), Assignment) else []
    case AugAssign(target, _) => Events(TargetNames(target), Augmented)
    case ExprStmt(_) => []
    case Assert(_, _) => []
    case FunctionDef(name, id, _) => [Event(name, Defined(id))]
    case If(test, body, orelse) =>
      (match LiteralTruth(test)
       case Some(true) => BodyEvents(body, ops)
       case Some(false) => BodyEvents(orelse, ops)
       case None => Events(UncertainNames(s), Uncertain))
    case While(test, _, orelse) =>
      if LiteralTruth(test) == Some(false) then BodyEvents(orelse, ops) else Events(UncertainNames(s), Uncertain)
    case For(_, iter, _, orelse) =>
      if IteratesNothing(iter) then BodyEvents(orelse, ops) else Events(UncertainNames(s), Uncertain)
    case _ => Events(UncertainNames(s), Uncertain)
  }

  function BodyEvents(ss: seq<Stmt>, ops: Operators): seq<Event>
    decreases ss, 1
  {
    if ss == [] then [] else StmtEvents(ss[0], ops) + BodyEvents(ss[1..], ops)
  }

  // ---------- the table of names ----------

  datatype Entry = Definite(origin: Origin) | Unsure

  type Table = map<Name, Entry>

  /** What the analyzer knows of the module besides its body: which names have a variable node,
      and which have several definitions. */
  datatype Symbols = Symbols(variables: set<Name>, ambiguous: set<Name>)

  /** The names the module has variable nodes for: those some event assigns. */
  function VariableNames(events: seq<Event>): set<Name> {
    set e | e in events && (e.kind == Assignment || e.kind == Augmented) :: e.name
  }

  function Record(table: Table, e: Event, symbols: Symbols): Table {
    match e.kind
    case Uncertain => table[e.name := Unsure]
    case Assignment => table[e.name := if e.name in symbols.variables then Definite(Variable) else Unsure]
    case Augmented =>
      table[e.name := if e.name in symbols.variables && e.name in table && table[e.name].Definite?
                      then Definite(Variable) else Unsure]
    case Defined(id) => table[e.name := if e.name in symbols.ambiguous then Unsure else Definite(Definition(id))]
  }

  function Fold(table: Table, events: seq<Event>, symbols: Symbols): Table
    decreases |events|
  {
    if events == [] then table else Fold(Record(table, events[0], symbols), events[1..], symbols)
  }

  /** The loop over a module's events. */
  method ModuleExports(events: seq<Event>, symbols: Symbols) returns (exports: Table)
    ensures exports == Fold(map[], events, symbols)
  {
    exports := map[];
    for i := 0 to |events|
      invariant Fold(map[], events, symbols) == Fold(exports, events[i..], symbols)
    {
      assert events[i..][0] == events[i] && events[i..][1..] == events[i + 1..];
      exports := Record(exports, events[i], symbols);
    }
  }
}
