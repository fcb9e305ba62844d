/** What the recorded events promise about runs: how expressions happen, and what statements touch. */
module BindingRuns {
  import opened Wrappers
  import opened PythonBodies
  import opened BindingEvents

  /** A name without entry is unbound; a definite entry says that the name is bound, and by what.
      Throughout, `free` are the names that functions may rebind: nothing is promised about them. */
  ghost predicate SoundAt(table: Table, env: Env, x: Name) {
    && (x !in table ==> x !in env)
    && (x in table && table[x].Definite? ==> x in env && env[x] == table[x].origin)
  }

  ghost predicate Sound(table: Table, env: Env, free: set<Name>) {
    forall x :: x !in free ==> SoundAt(table, env, x)
  }

  ghost predicate Same(env: Env, after: Env, x: Name) {
    (x in env <==> x in after) && (x in env ==> env[x] == after[x])
  }

  ghost predicate BoundVariable(env: Env, x: Name) {
    x in env && env[x] == Variable
  }

  /** Names outside `names` are left alone. */
  ghost predicate Touches(env: Env, after: Env, names: set<Name>) {
    forall x :: x !in names ==> Same(env, after, x)
  }

  /** The only changes are names of `names` becoming bound as variables. */
  ghost predicate Assigns(env: Env, after: Env, names: set<Name>, free: set<Name>) {
    forall x :: x !in free ==> Same(env, after, x) || (x in names && BoundVariable(after, x))
  }

  ghost function Named(events: seq<Event>): set<Name> {
    set e | e in events :: e.name
  }

  ghost function Members(names: seq<Name>): set<Name> {
    set x | x in names
  }

  /** Every definite walrus has run. */
  ghost predicate Realised(events: seq<Event>, env: Env, free: set<Name>) {
    forall e :: e in events && e.kind == Assignment && e.name !in free ==> BoundVariable(env, e.name)
  }

  ghost predicate AllUncertain(events: seq<Event>) {
    forall e :: e in events ==> e.kind == Uncertain
  }

  /** Expressions only make walrus events. */
  ghost predicate OnlyMarks(events: seq<Event>) {
    forall e :: e in events ==> e.kind == Uncertain || e.kind == Assignment
  }

  // ---------- folding ----------

  lemma {:induction false} FoldAppend(table: Table, a: seq<Event>, b: seq<Event>, symbols: Symbols)
    ensures Fold(table, a + b, symbols) == Fold(Fold(table, a, symbols), b, symbols)
    decreases |a|
  {
    if a == [] {
      assert a + b == b;
    } else {
      assert (a + b)[1..] == a[1..] + b;
      FoldAppend(Record(table, a[0], symbols), a[1..], b, symbols);
    }
  }

  ghost predicate AgreeAt(t: Table, u: Table, x: Name) {
    (x in t <==> x in u) && (x in t ==> t[x] == u[x])
  }

  lemma {:induction false} FoldFrame(table: Table, events: seq<Event>, symbols: Symbols, x: Name)
    requires x !in Named(events)
    ensures AgreeAt(table, Fold(table, events, symbols), x)
    decreases |events|
  {
    if events != [] {
      assert events[0] in events;
      assert x !in Named(events[1..]);
      FoldFrame(Record(table, events[0], symbols), events[1..], symbols, x);
    }
  }

  lemma {:induction false} FoldLocal(t: Table, u: Table, events: seq<Event>, symbols: Symbols, x: Name)
    requires AgreeAt(t, u, x)
    ensures AgreeAt(Fold(t, events, symbols), Fold(u, events, symbols), x)
    decreases |events|
  {
    if events != [] {
      FoldLocal(Record(t, events[0], symbols), Record(u, events[0], symbols), events[1..], symbols, x);
    }
  }

  /** For marks only the last event of a name counts. */
  lemma {:induction false} FoldForgets(t: Table, u: Table, events: seq<Event>, symbols: Symbols, x: Name)
    requires OnlyMarks(events) && x in Named(events)
    ensures AgreeAt(Fold(t, events, symbols), Fold(u, events, symbols), x)
    decreases |events|
  {
    assert events[0] in events;
    var t', u' := Record(t, events[0], symbols), Record(u, events[0], symbols);
    if events[0].name == x {
      FoldLocal(t', u', events[1..], symbols, x);
    } else {
      assert x in Named(events[1..]);
      FoldForgets(t', u', events[1..], symbols, x);
    }
  }

  /** Folding the same marks twice is folding them once. */
  lemma FoldTwice(table: Table, events: seq<Event>, symbols: Symbols)
    requires OnlyMarks(events)
    ensures Fold(Fold(table, events, symbols), events, symbols) == Fold(table, events, symbols)
  {
    var once := Fold(table, events, symbols);
    var twice := Fold(once, events, symbols);
    forall x
      ensures AgreeAt(twice, once, x)
    {
      if x in Named(events) {
        FoldForgets(once, table, events, symbols, x);
      } else {
        FoldFrame(once, events, symbols, x);
      }
    }
    assert forall x :: x in twice <==> AgreeAt(twice, once, x) && x in once;
  }

  lemma {:induction false} FoldUncertain(table: Table, events: seq<Event>, symbols: Symbols, x: Name)
    requires AllUncertain(events) && x in Named(events)
    ensures var after := Fold(table, events, symbols); x in after && after[x] == Unsure
    decreases |events|
  {
    assert events[0] in events;
    var next := Record(table, events[0], symbols);
    if x in Named(events[1..]) {
      FoldUncertain(next, events[1..], symbols, x);
    } else {
      FoldFrame(next, events[1..], symbols, x);
    }
  }

  /** Uncertain events allow any change of the names they mention. */
  lemma Havoc(table: Table, events: seq<Event>, symbols: Symbols, env: Env, after: Env, free: set<Name>)
    requires AllUncertain(events) && Sound(table, env, free) && Touches(env, after, Named(events) + free)
    ensures Sound(Fold(table, events, symbols), after, free)
  {
    forall x | x !in free
      ensures SoundAt(Fold(table, events, symbols), after, x)
    {
      assert SoundAt(table, env, x);
      if x in Named(events) {
        FoldUncertain(table, events, symbols, x);
      } else {
        FoldFrame(table, events, symbols, x);
        assert Same(env, after, x);
      }
    }
  }

  lemma NamedAppend(a: seq<Event>, b: seq<Event>)
    ensures Named(a + b) == Named(a) + Named(b)
  {
    forall x
      ensures x in Named(a + b) <==> x in Named(a) + Named(b)
    {
      if x in Named(a) {
        var e :| e in a && e.name == x;
        assert e in a + b;
      }
      if x in Named(b) {
        var e :| e in b && e.name == x;
        assert e in a + b;
      }
    }
  }

  // ---------- constants ----------

  lemma {:induction false} LiteralRuns(e: Expr, st: State, w: World)
    requires LiteralValue(e).Some? && Eval(e, st, w).Some?
    ensures Eval(e, st, w).value.v == LiteralValue(e).value && IsLiteral(LiteralValue(e).value)
    decreases e, 0
  {
    if e.Display? {
      LiteralsRun(e.elts, st, w);
    }
  }

  lemma {:induction false} LiteralsRun(es: seq<Expr>, st: State, w: World)
    requires LiteralValues(es).Some? && EvalAll(es, st, w).Some?
    ensures EvalAll(es, st, w).value.0 == LiteralValues(es).value
    ensures forall i :: 0 <= i < |es| && i < |LiteralValues(es).value| ==> IsLiteral(LiteralValues(es).value[i])
    ensures |LiteralValues(es).value| == |es|
    decreases es, 1
  {
    if es != [] {
      LiteralRuns(es[0], st, w);
      LiteralsRun(es[1..], Eval(es[0], st, w).value.st, w);
    }
  }

  lemma {:induction false} EvalAllLength(es: seq<Expr>, st: State, w: World)
    requires EvalAll(es, st, w).Some?
    ensures |EvalAll(es, st, w).value.0| == |es|
  {
    if es != [] {
      EvalAllLength(es[1..], Eval(es[0], st, w).value.st, w);
    }
  }

  lemma LiteralTruthRuns(e: Expr, st: State, w: World)
    requires LiteralTruth(e).Some? && Eval(e, st, w).Some?
    ensures Truth(Eval(e, st, w).value.v) == LiteralTruth(e).value
  {
    if LiteralValue(e).Some? {
      LiteralRuns(e, st, w);
    } else {
      EvalAllLength(e.elts, st, w);
    }
  }

  // ---------- expressions ----------

  /** Between `env` and `after` the events have happened as far as they are definite, and the
      table folded with them is right about `after`. */
  ghost predicate Happened(events: seq<Event>, table: Table, symbols: Symbols, env: Env, after: Env, free: set<Name>) {
    && OnlyMarks(events)
    && Assigns(env, after, Named(events), free)
    && Realised(events, after, free)
    && Sound(Fold(table, events, symbols), after, free)
  }

  lemma NothingHappened(table: Table, symbols: Symbols, env: Env, free: set<Name>)
    requires Sound(table, env, free)
    ensures Happened([], table, symbols, env, env, free)
  {
  }

  lemma HappenedThen(a: seq<Event>, b: seq<Event>, table: Table, symbols: Symbols, env: Env, mid: Env, after: Env, free: set<Name>)
    requires Happened(a, table, symbols, env, mid, free)
    requires Happened(b, Fold(table, a, symbols), symbols, mid, after, free)
    ensures Happened(a + b, table, symbols, env, after, free)
  {
    FoldAppend(table, a, b, symbols);
    NamedAppend(a, b);
    forall x | x !in free
      ensures Same(env, after, x) || (x in Named(a + b) && BoundVariable(after, x))
    {
      assert Same(env, mid, x) || (x in Named(a) && BoundVariable(mid, x));
      assert Same(mid, after, x) || (x in Named(b) && BoundVariable(after, x));
    }
    forall e | e in a + b && e.kind == Assignment && e.name !in free
      ensures BoundVariable(after, e.name)
    {
      if e in a {
        assert BoundVariable(mid, e.name);
        assert Same(mid, after, e.name) || BoundVariable(after, e.name);
      }
    }
  }

  /** A disturbance of free names changes nothing that is promised. */
  lemma SoundDisturbed(table: Table, env: Env, after: Env, free: set<Name>)
    requires Sound(table, env, free) && Touches(env, after, free)
    ensures Sound(table, after, free)
  {
    forall x | x !in free
      ensures SoundAt(table, after, x)
    {
      assert SoundAt(table, env, x) && Same(env, after, x);
    }
  }

  lemma HappenedDisturbed(events: seq<Event>, table: Table, symbols: Symbols, env: Env, mid: Env, after: Env, free: set<Name>)
    requires Happened(events, table, symbols, env, mid, free) && Touches(mid, after, free)
    ensures Happened(events, table, symbols, env, after, free)
  {
    SoundDisturbed(Fold(table, events, symbols), mid, after, free);
    forall x | x !in free
      ensures Same(env, after, x) || (x in Named(events) && BoundVariable(after, x))
    {
      assert Same(mid, after, x);
      assert Same(env, mid, x) || (x in Named(events) && BoundVariable(mid, x));
    }
    forall e | e in events && e.kind == Assignment && e.name !in free
      ensures BoundVariable(after, e.name)
    {
      assert Same(mid, after, e.name);
    }
  }

  lemma AskTouches(st: State, w: World)
    ensures Touches(st.env, Ask(st, w).st.env, w.rebinds)
  {
    forall x | x !in w.rebinds
      ensures Same(st.env, Ask(st, w).st.env, x)
    {
      DisturbsOnly(st.env, w.effects(st.clock), w.rebinds, x);
    }
  }

  lemma AskHappens(st: State, w: World, table: Table, symbols: Symbols)
    requires Sound(table, st.env, w.rebinds)
    ensures Happened([], table, symbols, st.env, Ask(st, w).st.env, w.rebinds)
  {
    NothingHappened(table, symbols, st.env, w.rebinds);
    AskTouches(st, w);
    HappenedDisturbed([], table, symbols, st.env, st.env, Ask(st, w).st.env, w.rebinds);
  }

  lemma SkippedUncertain(events: seq<Event>, table: Table, symbols: Symbols, env: Env, free: set<Name>)
    requires AllUncertain(events) && Sound(table, env, free)
    ensures Happened(events, table, symbols, env, env, free)
  {
    Havoc(table, events, symbols, env, env, free);
  }

  lemma HappenedSound(events: seq<Event>, table: Table, symbols: Symbols, env: Env, after: Env, free: set<Name>)
    requires Happened(events, table, symbols, env, after, free)
    ensures Sound(Fold(table, events, symbols), after, free)
  {
  }

  lemma {:induction false} ExprEventsMarks(e: Expr, definite: bool, ops: Operators)
    ensures OnlyMarks(ExprEvents(e, definite, ops))
    ensures !definite ==> AllUncertain(ExprEvents(e, definite, ops))
    decreases e, 0
  {
    match e
    case Walrus(_, value) => ExprEventsMarks(value, definite, ops);
    case BoolOp(isAnd, values) => BoolEventsMarks(isAnd, values, definite, ops);
    case Compare(left, operators, rights) =>
      ExprEventsMarks(left, definite, ops);
      ChainEventsMarks(left, operators, rights, definite, ops);
    case IfExp(test, body, orelse) =>
      ExprEventsMarks(test, definite, ops);
      ExprEventsMarks(body, definite, ops);
      ExprEventsMarks(orelse, definite, ops);
      ExprEventsMarks(body, false, ops);
      ExprEventsMarks(orelse, false, ops);
    case Display(_, elts) => AllEventsMarks(elts, definite, ops);
    case Other(children) => AllEventsMarks(children, definite, ops);
    case _ =>
  }

  lemma {:induction false} AllEventsMarks(es: seq<Expr>, definite: bool, ops: Operators)
    ensures OnlyMarks(AllEvents(es, definite, ops))
    ensures !definite ==> AllUncertain(AllEvents(es, definite, ops))
    decreases es, 1
  {
    if es != [] {
      ExprEventsMarks(es[0], definite, ops);
      AllEventsMarks(es[1..], definite, ops);
    }
  }

  lemma {:induction false} BoolEventsMarks(isAnd: bool, values: seq<Expr>, definite: bool, ops: Operators)
    ensures OnlyMarks(BoolEvents(isAnd, values, definite, ops))
    ensures !definite ==> AllUncertain(BoolEvents(isAnd, values, definite, ops))
    decreases values, 1
  {
    if values != [] {
      ExprEventsMarks(values[0], definite, ops);
      BoolEventsMarks(isAnd, values[1..], definite && LiteralTruth(values[0]).Some?, ops);
    }
  }

  lemma {:induction false} ChainEventsMarks(left: Expr, operators: seq<Comparison>, rights: seq<Expr>, definite: bool, ops: Operators)
    ensures OnlyMarks(ChainEvents(left, operators, rights, definite, ops))
    ensures !definite ==> AllUncertain(ChainEvents(left, operators, rights, definite, ops))
    decreases rights, 1
  {
    if operators != [] && rights != [] {
      var more := definite && ComparisonTruth(operators[0], left, rights[0], ops).Some?;
      ExprEventsMarks(rights[0], definite, ops);
      ChainEventsMarks(rights[0], operators[1..], rights[1..], more, ops);
    }
  }

  lemma {:induction false} ExprRuns(e: Expr, definite: bool, st: State, w: World, table: Table, symbols: Symbols)
    requires Eval(e, st, w).Some? && Sound(table, st.env, w.rebinds)
    ensures Happened(ExprEvents(e, definite, w.ops), table, symbols, st.env, Eval(e, st, w).value.st.env, w.rebinds)
    decreases e, 1
  {
    var after := Eval(e, st, w).value.st;
    match e
    case Constant(_) => NothingHappened(table, symbols, st.env, w.rebinds);
    case Load(_) => AskHappens(st, w, table, symbols);
    case Walrus(x, value) =>
      var mid := Eval(value, st, w).value.st;
      ExprRuns(value, definite, st, w, table, symbols);
      WalrusHappens(x, definite, Fold(table, ExprEvents(value, definite, w.ops), symbols), symbols, mid.env, w.rebinds);
      HappenedThen(ExprEvents(value, definite, w.ops), [Mark(x, definite)], table, symbols, st.env, mid.env, after.env, w.rebinds);
    case BoolOp(isAnd, values) => BoolRuns(isAnd, values, definite, st, w, table, symbols);
    case Compare(left, operators, rights) =>
      var l := Eval(left, st, w).value;
      var events := ExprEvents(left, definite, w.ops);
      ExprRuns(left, definite, st, w, table, symbols);
      if LiteralValue(left).Some? {
        LiteralRuns(left, st, w);
      }
      ChainRuns(left, l.v, operators, rights, definite, l.st, w, Fold(table, events, symbols), symbols);
      HappenedThen(events, ChainEvents(left, operators, rights, definite, w.ops), table, symbols, st.env, l.st.env, after.env, w.rebinds);
    case IfExp(test, body, orelse) => IfExpRuns(e, definite, st, w, table, symbols);
    case Display(_, elts) => AllRun(elts, definite, st, w, table, symbols);
    case Other(children) =>
      AllRun(children, definite, st, w, table, symbols);
      var mid := EvalAll(children, st, w).value.1;
      AskTouches(mid, w);
      HappenedDisturbed(AllEvents(children, definite, w.ops), table, symbols, st.env, mid.env, after.env, w.rebinds);
  }

  lemma WalrusHappens(x: Name, definite: bool, table: Table, symbols: Symbols, env: Env, free: set<Name>)
    requires Sound(table, env, free)
    ensures Happened([Mark(x, definite)], table, symbols, env, env[x := Variable], free)
  {
    var events := [Mark(x, definite)];
    assert Fold(table, events, symbols) == Record(table, Mark(x, definite), symbols);
    assert Mark(x, definite) in events && x in Named(events);
    var folded, after := Fold(table, events, symbols), env[x := Variable];
    forall y | y !in free
      ensures SoundAt(folded, after, y)
    {
      assert SoundAt(table, env, y);
    }
  }

  lemma {:induction false} IfExpRuns(e: Expr, definite: bool, st: State, w: World, table: Table, symbols: Symbols)
    requires e.IfExp? && Eval(e, st, w).Some? && Sound(table, st.env, w.rebinds)
    ensures Happened(ExprEvents(e, definite, w.ops), table, symbols, st.env, Eval(e, st, w).value.st.env, w.rebinds)
    decreases e, 0
  {
    var t := Eval(e.test, st, w).value;
    var after := Eval(e, st, w).value.st;
    var events := ExprEvents(e.test, definite, w.ops);
    var table1 := Fold(table, events, symbols);
    ExprRuns(e.test, definite, st, w, table, symbols);
    var taken := if Truth(t.v) then e.body else e.orelse;
    if LiteralTruth(e.test).Some? {
      LiteralTruthRuns(e.test, st, w);
      ExprRuns(taken, definite, t.st, w, table1, symbols);
      HappenedThen(events, ExprEvents(taken, definite, w.ops), table, symbols, st.env, t.st.env, after.env, w.rebinds);
    } else {
      var first, second := ExprEvents(e.body, false, w.ops), ExprEvents(e.orelse, false, w.ops);
      ExprEventsMarks(e.body, false, w.ops);
      ExprEventsMarks(e.orelse, false, w.ops);
      if Truth(t.v) {
        ExprRuns(e.body, false, t.st, w, table1, symbols);
        SkippedUncertain(second, Fold(table1, first, symbols), symbols, after.env, w.rebinds);
        HappenedThen(first, second, table1, symbols, t.st.env, after.env, after.env, w.rebinds);
      } else {
        SkippedUncertain(first, table1, symbols, t.st.env, w.rebinds);
        ExprRuns(e.orelse, false, t.st, w, Fold(table1, first, symbols), symbols);
        HappenedThen(first, second, table1, symbols, t.st.env, t.st.env, after.env, w.rebinds);
      }
      HappenedThen(events, first + second, table, symbols, st.env, t.st.env, after.env, w.rebinds);
    }
  }

  lemma {:induction false} AllRun(es: seq<Expr>, definite: bool, st: State, w: World, table: Table, symbols: Symbols)
    requires EvalAll(es, st, w).Some? && Sound(table, st.env, w.rebinds)
    ensures Happened(AllEvents(es, definite, w.ops), table, symbols, st.env, EvalAll(es, st, w).value.1.env, w.rebinds)
    decreases es, 1
  {
    if es == [] {
      NothingHappened(table, symbols, st.env, w.rebinds);
    } else {
      var first := Eval(es[0], st, w).value;
      var events := ExprEvents(es[0], definite, w.ops);
      ExprRuns(es[0], definite, st, w, table, symbols);
      AllRun(es[1..], definite, first.st, w, Fold(table, events, symbols), symbols);
      HappenedThen(events, AllEvents(es[1..], definite, w.ops), table, symbols, st.env, first.st.env,
                   EvalAll(es, st, w).value.1.env, w.rebinds);
    }
  }

  lemma {:induction false} BoolRuns(isAnd: bool, values: seq<Expr>, definite: bool, st: State, w: World,
                                    table: Table, symbols: Symbols)
    requires EvalBool(isAnd, values, st, w).Some? && Sound(table, st.env, w.rebinds)
    ensures Happened(BoolEvents(isAnd, values, definite, w.ops), table, symbols, st.env,
                     EvalBool(isAnd, values, st, w).value.st.env, w.rebinds)
    decreases values, 1
  {
    var first := Eval(values[0], st, w).value;
    var after := EvalBool(isAnd, values, st, w).value.st;
    var events := ExprEvents(values[0], definite, w.ops);
    var truth := LiteralTruth(values[0]);
    var table1 := Fold(table, events, symbols);
    ExprRuns(values[0], definite, st, w, table, symbols);
    if truth.Some? {
      LiteralTruthRuns(values[0], st, w);
    }
    var more := definite && truth.Some?;
    if truth == Some(!isAnd) {
      assert BoolEvents(isAnd, values, definite, w.ops) == events;
    } else {
      var rest := BoolEvents(isAnd, values[1..], more, w.ops);
      if |values| > 1 && Truth(first.v) == isAnd {
        BoolRuns(isAnd, values[1..], more, first.st, w, table1, symbols);
      } else if |values| == 1 {
        NothingHappened(table1, symbols, first.st.env, w.rebinds);
      } else {
        BoolEventsMarks(isAnd, values[1..], false, w.ops);
        SkippedUncertain(rest, table1, symbols, first.st.env, w.rebinds);
      }
      HappenedThen(events, rest, table, symbols, st.env, first.st.env, after.env, w.rebinds);
    }
  }

  lemma CompareTouches(op: Comparison, left: Value, right: Value, st: State, w: World)
    requires CompareValues(op, left, right, st, w).Some?
    ensures Touches(st.env, CompareValues(op, left, right, st, w).value.st.env, w.rebinds)
  {
    AskTouches(st, w);
  }

  lemma {:induction false} ChainRuns(left: Expr, v: Value, operators: seq<Comparison>, rights: seq<Expr>, definite: bool,
                                     st: State, w: World, table: Table, symbols: Symbols)
    requires EvalChain(v, operators, rights, st, w).Some? && Sound(table, st.env, w.rebinds)
    requires LiteralValue(left).Some? ==> v == LiteralValue(left).value && IsLiteral(v)
    ensures Happened(ChainEvents(left, operators, rights, definite, w.ops), table, symbols, st.env,
                     EvalChain(v, operators, rights, st, w).value.st.env, w.rebinds)
    decreases rights, 1
  {
    hide Happened, Fold, ExprEvents, Eval, LiteralValue, IsLiteral;
    var right := Eval(rights[0], st, w).value;
    var after := EvalChain(v, operators, rights, st, w).value.st;
    var events := ExprEvents(rights[0], definite, w.ops);
    var truth := ComparisonTruth(operators[0], left, rights[0], w.ops);
    var table1 := Fold(table, events, symbols);
    ExprRuns(rights[0], definite, st, w, table, symbols);
    if LiteralValue(rights[0]).Some? {
      LiteralRuns(rights[0], st, w);
    }
    var r := CompareValues(operators[0], v, right.v, right.st, w).value;
    CompareTouches(operators[0], v, right.v, right.st, w);
    HappenedDisturbed(events, table, symbols, st.env, right.st.env, r.st.env, w.rebinds);
    HappenedSound(events, table, symbols, st.env, r.st.env, w.rebinds);
    assert truth.Some? ==> Truth(r.v) == truth.value;
    if truth == Some(false) {
      assert ChainEvents(left, operators, rights, definite, w.ops) == events;
    } else {
      var more := definite && truth.Some?;
      var rest := ChainEvents(rights[0], operators[1..], rights[1..], more, w.ops);
      if |operators| == 1 || |rights| == 1 {
        NothingHappened(table1, symbols, r.st.env, w.rebinds);
      } else if Truth(r.v) {
        ChainRuns(rights[0], right.v, operators[1..], rights[1..], more, r.st, w, table1, symbols);
      } else {
        ChainEventsMarks(rights[0], operators[1..], rights[1..], false, w.ops);
        SkippedUncertain(rest, table1, symbols, r.st.env, w.rebinds);
      }
      HappenedThen(events, rest, table, symbols, st.env, r.st.env, after.env, w.rebinds);
    }
  }

  // ---------- names ----------

  lemma MembersAppend(a: seq<Name>, b: seq<Name>)
    ensures Members(a + b) == Members(a) + Members(b)
  {
  }

  lemma {:induction false} NamedEvents(names: seq<Name>, kind: Kind)
    ensures Named(Events(names, kind)) == Members(names)
    ensures forall e :: e in Events(names, kind) ==> e.kind == kind
  {
    if names != [] {
      NamedEvents(names[1..], kind);
      NamedAppend([Event(names[0], kind)], Events(names[1..], kind));
      MembersAppend([names[0]], names[1..]);
      assert names == [names[0]] + names[1..];
    }
  }

  lemma {:induction false} ExprEventsNamed(e: Expr, definite: bool, ops: Operators)
    ensures Named(ExprEvents(e, definite, ops)) <= Members(ExprNames(e))
    decreases e, 0
  {
    match e
    case Walrus(x, value) =>
      ExprEventsNamed(value, definite, ops);
      NamedAppend(ExprEvents(value, definite, ops), [Mark(x, definite)]);
    case BoolOp(isAnd, values) => BoolEventsNamed(isAnd, values, definite, ops);
    case Compare(left, operators, rights) =>
      ExprEventsNamed(left, definite, ops);
      ChainEventsNamed(left, operators, rights, definite, ops);
      NamedAppend(ExprEvents(left, definite, ops), ChainEvents(left, operators, rights, definite, ops));
    case IfExp(test, body, orelse) =>
      ExprEventsNamed(test, definite, ops);
      ExprEventsNamed(body, definite, ops);
      ExprEventsNamed(orelse, definite, ops);
      ExprEventsNamed(body, false, ops);
      ExprEventsNamed(orelse, false, ops);
      NamedAppend(ExprEvents(body, false, ops), ExprEvents(orelse, false, ops));
      NamedAppend(ExprEvents(test, definite, ops), ExprEvents(body, definite, ops));
      NamedAppend(ExprEvents(test, definite, ops), ExprEvents(orelse, definite, ops));
      NamedAppend(ExprEvents(test, definite, ops), ExprEvents(body, false, ops) + ExprEvents(orelse, false, ops));
    case Display(_, elts) => AllEventsNamed(elts, definite, ops);
    case Other(children) => AllEventsNamed(children, definite, ops);
    case _ =>
  }

  lemma {:induction false} AllEventsNamed(es: seq<Expr>, definite: bool, ops: Operators)
    ensures Named(AllEvents(es, definite, ops)) <= Members(AllNames(es))
    decreases es, 1
  {
    if es != [] {
      ExprEventsNamed(es[0], definite, ops);
      AllEventsNamed(es[1..], definite, ops);
      NamedAppend(ExprEvents(es[0], definite, ops), AllEvents(es[1..], definite, ops));
      MembersAppend(ExprNames(es[0]), AllNames(es[1..]));
    }
  }

  lemma {:induction false} BoolEventsNamed(isAnd: bool, values: seq<Expr>, definite: bool, ops: Operators)
    ensures Named(BoolEvents(isAnd, values, definite, ops)) <= Members(AllNames(values))
    decreases values, 1
  {
    if values != [] {
      var more := definite && LiteralTruth(values[0]).Some?;
      ExprEventsNamed(values[0], definite, ops);
      BoolEventsNamed(isAnd, values[1..], more, ops);
      NamedAppend(ExprEvents(values[0], definite, ops), BoolEvents(isAnd, values[1..], more, ops));
      NamedAppend(ExprEvents(values[0], definite, ops), []);
      MembersAppend(ExprNames(values[0]), AllNames(values[1..]));
    }
  }

  lemma {:induction false} ChainEventsNamed(left: Expr, operators: seq<Comparison>, rights: seq<Expr>, definite: bool, ops: Operators)
    ensures Named(ChainEvents(left, operators, rights, definite, ops)) <= Members(AllNames(rights))
    decreases rights, 1
  {
    if operators != [] && rights != [] {
      var more := definite && ComparisonTruth(operators[0], left, rights[0], ops).Some?;
      ExprEventsNamed(rights[0], definite, ops);
      ChainEventsNamed(rights[0], operators[1..], rights[1..], more, ops);
      NamedAppend(ExprEvents(rights[0], definite, ops), ChainEvents(rights[0], operators[1..], rights[1..], more, ops));
      NamedAppend(ExprEvents(rights[0], definite, ops), []);
      MembersAppend(ExprNames(rights[0]), AllNames(rights[1..]));
    }
  }

  lemma {:induction false} TargetEventsNamed(t: Target, ops: Operators)
    ensures Named(TargetEvents(t, ops)) <= Members(TargetNames(t))
    decreases t, 0
  {
    match t
    case NameTarget(_) =>
    case ItemTarget(base, index) =>
      ExprEventsNamed(base, true, ops);
      ExprEventsNamed(index, true, ops);
      NamedAppend(ExprEvents(base, true, ops), ExprEvents(index, true, ops));
    case TupleTarget(elts) => TargetsEventsNamed(elts, ops);
  }

  lemma {:induction false} TargetsEventsNamed(ts: seq<Target>, ops: Operators)
    ensures Named(TargetsEvents(ts, ops)) <= Members(TargetsNames(ts))
    decreases ts, 1
  {
    if ts != [] {
      TargetEventsNamed(ts[0], ops);
      TargetsEventsNamed(ts[1..], ops);
      NamedAppend(TargetEvents(ts[0], ops), TargetsEvents(ts[1..], ops));
      MembersAppend(TargetNames(ts[0]), TargetsNames(ts[1..]));
    }
  }

  // ---------- what expressions and targets do to the environment ----------

  ghost function NothingKnown(env: Env): Table {
    map x | x in env :: Unsure
  }

  lemma ExprEffect(e: Expr, definite: bool, st: State, w: World)
    requires Eval(e, st, w).Some?
    ensures var after := Eval(e, st, w).value.st.env;
            && Assigns(st.env, after, Named(ExprEvents(e, definite, w.ops)), w.rebinds)
            && Assigns(st.env, after, Members(ExprNames(e)), w.rebinds)
            && Realised(ExprEvents(e, definite, w.ops), after, w.rebinds)
  {
    ExprRuns(e, definite, st, w, NothingKnown(st.env), Symbols({}, {}));
    ExprEventsNamed(e, definite, w.ops);
  }

  /** A store binds only names of its targets, and the definite walruses of the subscripts have run. */
  ghost predicate Stored(names: seq<Name>, events: seq<Event>, env: Env, after: Env, free: set<Name>) {
    Assigns(env, after, Members(names), free) && Realised(events, after, free)
  }

  lemma StoredThen(names1: seq<Name>, events1: seq<Event>, env: Env, mid: Env,
                   names2: seq<Name>, events2: seq<Event>, after: Env, free: set<Name>)
    requires Stored(names1, events1, env, mid, free) && Stored(names2, events2, mid, after, free)
    ensures Stored(names1 + names2, events1 + events2, env, after, free)
  {
    MembersAppend(names1, names2);
    forall x | x !in free
      ensures Same(env, after, x) || (x in Members(names1 + names2) && BoundVariable(after, x))
      ensures BoundVariable(mid, x) ==> BoundVariable(after, x)
    {
      assert Same(env, mid, x) || (x in Members(names1) && BoundVariable(mid, x));
      assert Same(mid, after, x) || (x in Members(names2) && BoundVariable(after, x));
    }
  }

  lemma {:induction false} StoreEffect(t: Target, st: State, w: World)
    requires Store(t, st, w).Some?
    ensures Stored(TargetNames(t), TargetEvents(t, w.ops), st.env, Store(t, st, w).value.env, w.rebinds)
    decreases t, 0
  {
    match t
    case NameTarget(_) =>
    case ItemTarget(base, index) =>
      var b := Eval(base, st, w).value;
      ExprEffect(base, true, st, w);
      ExprEffect(index, true, b.st, w);
      StoredThen(ExprNames(base), ExprEvents(base, true, w.ops), st.env, b.st.env,
                 ExprNames(index), ExprEvents(index, true, w.ops), Store(t, st, w).value.env, w.rebinds);
    case TupleTarget(elts) => StoreAllEffect(elts, st, w);
  }

  lemma {:induction false} StoreAllEffect(ts: seq<Target>, st: State, w: World)
    requires StoreAll(ts, st, w).Some?
    ensures Stored(TargetsNames(ts), TargetsEvents(ts, w.ops), st.env, StoreAll(ts, st, w).value.env, w.rebinds)
    decreases ts, 1
  {
    if ts != [] {
      var mid := Store(ts[0], st, w).value;
      StoreEffect(ts[0], st, w);
      StoreAllEffect(ts[1..], mid, w);
      StoredThen(TargetNames(ts[0]), TargetEvents(ts[0], w.ops), st.env, mid.env,
                 TargetsNames(ts[1..]), TargetsEvents(ts[1..], w.ops),
                 StoreAll(ts, st, w).value.env, w.rebinds);
    }
  }

  lemma KeepsBound(env: Env, after: Env, names: set<Name>, x: Name, free: set<Name>)
    requires Assigns(env, after, names, free) && BoundVariable(env, x) && x !in free
    ensures BoundVariable(after, x)
  {
    assert Same(env, after, x) || BoundVariable(after, x);
  }

  // ---------- what statements may touch ----------

  lemma TouchesThen(env: Env, mid: Env, after: Env, names: set<Name>)
    requires Touches(env, mid, names) && Touches(mid, after, names)
    ensures Touches(env, after, names)
  {
    forall x | x !in names
      ensures Same(env, after, x)
    {
      assert Same(env, mid, x) && Same(mid, after, x);
    }
  }

  lemma AssignsTouches(env: Env, after: Env, names: set<Name>, more: set<Name>, free: set<Name>)
    requires Assigns(env, after, names, free) && names + free <= more
    ensures Touches(env, after, more)
  {
  }

  lemma EvalTouches(e: Expr, st: State, w: World, names: set<Name>)
    requires Eval(e, st, w).Some? && Members(ExprNames(e)) + w.rebinds <= names
    ensures Touches(st.env, Eval(e, st, w).value.st.env, names)
  {
    ExprEffect(e, true, st, w);
    AssignsTouches(st.env, Eval(e, st, w).value.st.env, Members(ExprNames(e)), names, w.rebinds);
  }

  lemma StoreTouches(t: Target, st: State, w: World, names: set<Name>)
    requires Store(t, st, w).Some? && Members(TargetNames(t)) + w.rebinds <= names
    ensures Touches(st.env, Store(t, st, w).value.env, names)
  {
    StoreEffect(t, st, w);
    AssignsTouches(st.env, Store(t, st, w).value.env, Members(TargetNames(t)), names, w.rebinds);
  }

  lemma {:induction false} UnbindTouches(xs: seq<Name>, st: State, names: set<Name>)
    requires Unbind(xs, st).Some? && Members(xs) <= names
    ensures Touches(st.env, Unbind(xs, st).value.env, names)
  {
    if xs != [] {
      assert xs[0] in Members(xs);
      UnbindTouches(xs[1..], st.(env := st.env - {xs[0]}), names);
    }
  }

  /** Executing a statement, however it ends, touches nothing but its collected names. */
  lemma {:induction false} ExecTouches(s: Stmt, st: State, w: World, fuel: nat, names: set<Name>)
    requires Exec(s, st, w, fuel).Some? && Members(CollectedNames(s)) + w.rebinds <= names
    ensures Touches(st.env, Exec(s, st, w, fuel).value.st.env, names)
    decreases fuel, s, 1
  {
    match s
    case ExprStmt(value) => EvalTouches(value, st, w, names);
    case Assign(targets, value) =>
      MembersAppend(TargetsNames(targets), ExprNames(value));
      EvalTouches(value, st, w, names);
      var mid := Eval(value, st, w).value.st;
      StoreAllEffect(targets, mid, w);
      AssignsTouches(mid.env, StoreAll(targets, mid, w).value.env, Members(TargetsNames(targets)), names, w.rebinds);
      TouchesThen(st.env, mid.env, Exec(s, st, w, fuel).value.st.env, names);
    case AnnAssign(target, optValue) =>
      MembersAppend(TargetNames(target), if optValue.Some? then ExprNames(optValue.value) else []);
      if optValue.Some? {
        EvalTouches(optValue.value, st, w, names);
        var mid := Eval(optValue.value, st, w).value.st;
        StoreTouches(target, mid, w, names);
        TouchesThen(st.env, mid.env, Exec(s, st, w, fuel).value.st.env, names);
      } else if target.ItemTarget? {
        StoreTouches(target, st, w, names);
      }
    case AugAssign(target, value) =>
      MembersAppend(TargetNames(target), ExprNames(value));
      if target.NameTarget? {
        EvalTouches(value, st, w, names);
        var mid := Eval(value, st, w).value.st;
        StoreTouches(target, mid, w, names);
        TouchesThen(st.env, mid.env, Exec(s, st, w, fuel).value.st.env, names);
      } else {
        StoreTouches(target, st, w, names);
        var mid := Store(target, st, w).value;
        EvalTouches(value, mid, w, names);
        TouchesThen(st.env, mid.env, Exec(s, st, w, fuel).value.st.env, names);
      }
    case Assert(test, msg) =>
      MembersAppend(ExprNames(test), if msg.Some? then ExprNames(msg.value) else []);
      EvalTouches(test, st, w, names);
    case FunctionDef(name, _, _) => assert name in Members([name]);
    case Delete(xs) => UnbindTouches(xs, st, names);
    case If(test, body, orelse) =>
      MembersAppend(ExprNames(test) + CollectedFrom(body), CollectedFrom(orelse));
      MembersAppend(ExprNames(test), CollectedFrom(body));
      EvalTouches(test, st, w, names);
      var r := Eval(test, st, w).value;
      BodyTouches(if Truth(r.v) then body else orelse, r.st, w, fuel, names);
      TouchesThen(st.env, r.st.env, Exec(s, st, w, fuel).value.st.env, names);
    case While(test, body, orelse) =>
      MembersAppend(ExprNames(test) + CollectedFrom(body), CollectedFrom(orelse));
      MembersAppend(ExprNames(test), CollectedFrom(body));
      WhileTouches(s, st, w, fuel, names);
    case For(target, iter, body, orelse) =>
      MembersAppend(TargetNames(target) + ExprNames(iter) + CollectedFrom(body), CollectedFrom(orelse));
      MembersAppend(TargetNames(target) + ExprNames(iter), CollectedFrom(body));
      MembersAppend(TargetNames(target), ExprNames(iter));
      EvalTouches(iter, st, w, names);
      var r := Eval(iter, st, w).value;
      ForTouches(s, r.v, r.st, w, fuel, names);
      TouchesThen(st.env, r.st.env, Exec(s, st, w, fuel).value.st.env, names);
    case _ =>
  }

  lemma {:induction false} BodyTouches(ss: seq<Stmt>, st: State, w: World, fuel: nat, names: set<Name>)
    requires ExecAll(ss, st, w, fuel).Some? && Members(CollectedFrom(ss)) + w.rebinds <= names
    ensures Touches(st.env, ExecAll(ss, st, w, fuel).value.st.env, names)
    decreases fuel, ss, 2
  {
    if ss != [] {
      MembersAppend(CollectedNames(ss[0]), CollectedFrom(ss[1..]));
      ExecTouches(ss[0], st, w, fuel, names);
      var first := Exec(ss[0], st, w, fuel).value;
      if first.how == Normal {
        BodyTouches(ss[1..], first.st, w, fuel, names);
        TouchesThen(st.env, first.st.env, ExecAll(ss, st, w, fuel).value.st.env, names);
      }
    }
  }

  lemma {:induction false} WhileTouches(s: Stmt, st: State, w: World, fuel: nat, names: set<Name>)
    requires s.While? && RunWhile(s, st, w, fuel).Some?
    requires Members(ExprNames(s.test)) <= names && Members(CollectedFrom(s.body)) <= names
    requires Members(CollectedFrom(s.orelse)) + w.rebinds <= names
    ensures Touches(st.env, RunWhile(s, st, w, fuel).value.st.env, names)
    decreases fuel, s, 0
  {
    var t := Eval(s.test, st, w).value;
    var after := RunWhile(s, st, w, fuel).value.st.env;
    EvalTouches(s.test, st, w, names);
    if !Truth(t.v) {
      BodyTouches(s.orelse, t.st, w, fuel - 1, names);
    } else {
      BodyTouches(s.body, t.st, w, fuel - 1, names);
      var b := ExecAll(s.body, t.st, w, fuel - 1).value;
      if b.how != Broke {
        WhileTouches(s, b.st, w, fuel - 1, names);
        TouchesThen(t.st.env, b.st.env, after, names);
      }
    }
    TouchesThen(st.env, t.st.env, after, names);
  }

  lemma {:induction false} ForTouches(s: Stmt, v: Value, st: State, w: World, fuel: nat, names: set<Name>)
    requires s.For? && RunFor(s, v, st, w, fuel).Some?
    requires Members(TargetNames(s.target)) <= names && Members(CollectedFrom(s.body)) <= names
    requires Members(CollectedFrom(s.orelse)) + w.rebinds <= names
    ensures Touches(st.env, RunFor(s, v, st, w, fuel).value.st.env, names)
    decreases fuel, s, 0
  {
    var more := Ask(st, w);
    var after := RunFor(s, v, st, w, fuel).value.st.env;
    AskTouches(st, w);
    assert Touches(st.env, more.st.env, names);
    if (v.Sequence? && v.items == []) || !Truth(more.v) {
      BodyTouches(s.orelse, more.st, w, fuel - 1, names);
    } else {
      var bound := Store(s.target, more.st, w).value;
      StoreTouches(s.target, more.st, w, names);
      BodyTouches(s.body, bound, w, fuel - 1, names);
      var b := ExecAll(s.body, bound, w, fuel - 1).value;
      TouchesThen(more.st.env, bound.env, b.st.env, names);
      if b.how != Broke {
        ForTouches(s, v, b.st, w, fuel - 1, names);
        TouchesThen(more.st.env, b.st.env, after, names);
      }
    }
    TouchesThen(st.env, more.st.env, after, names);
  }
}
