/** Where the table of names is exact, and where the analysis promises too much. */
module BindingLimits {
  import opened Wrappers
  import opened PythonBodies
  import opened BindingEvents
  import opened BindingRuns
  import opened BindingOutcomes
  import opened BindingSoundness
  import opened BindingStores

  // ---------- exactly which statements are recorded rightly ----------

  /** In every context, and whatever functions may rebind: the table is right after the statement if it was before. */
  ghost predicate SoundRuns(s: Stmt, ops: Operators, symbols: Symbols) {
    forall table: Table, st: State, w: World, fuel: nat |
      w.ops == ops && Sound(table, st.env, w.rebinds) && Exec(s, st, w, fuel).Some? && Exec(s, st, w, fuel).value.how == Normal ::
      Sound(Fold(table, StmtEvents(s, ops), symbols), Exec(s, st, w, fuel).value.st.env, w.rebinds)
  }

  /** The statement's events are its own: no branch is visited with certainty. */
  ghost predicate VisitsNoBody(s: Stmt) {
    match s
    case If(test, body, orelse) =>
      (LiteralTruth(test) == Some(true) ==> body == []) && (LiteralTruth(test) == Some(false) ==> orelse == [])
    case While(test, _, orelse) => LiteralTruth(test) == Some(false) ==> orelse == []
    case For(_, iter, _, orelse) => IteratesNothing(iter) ==> orelse == []
    case _ => true
  }

  /** A statement is recorded rightly in every context if and only if it cannot skip a walrus in a target. */
  lemma StatementExact(s: Stmt, ops: Operators, symbols: Symbols)
    requires VisitsNoBody(s)
    ensures SoundRuns(s, ops, symbols) <==> NothingSkipped(s, ops, symbols)
  {
    if NothingSkipped(s, ops, symbols) {
      forall table: Table, st: State, w: World, fuel: nat |
        w.ops == ops && Sound(table, st.env, w.rebinds) && Exec(s, st, w, fuel).Some? && Exec(s, st, w, fuel).value.how == Normal
        ensures Sound(Fold(table, StmtEvents(s, ops), symbols), Exec(s, st, w, fuel).value.st.env, w.rebinds)
      {
        StmtSound(s, st, w, fuel, table, symbols);
      }
    } else if s.Assign? {
      var x :| x in TargetsNames(s.targets) && x in symbols.variables && AssignSkips(s.targets, s.value, x, ops);
      SkippedAssign(s, s.targets, s.value, x, ops, symbols);
    } else if s.AnnAssign? {
      var x :| x in TargetsNames([s.target]) && x in symbols.variables && AssignSkips([s.target], s.optValue.value, x, ops);
      OneTarget(s.target, ops);
      SkippedAssign(s, [s.target], s.optValue.value, x, ops, symbols);
    } else if s.AugAssign? {
      var x :| x in TargetNames(s.target) && x in symbols.variables && AugmentSkips(s.target, s.value, x, ops);
      SkippedAugment(s, x, ops, symbols);
    } else {
      assert NothingSkippedIn([], ops, symbols);
      SkippedLoop(s, ops, symbols);
    }
  }

  /** Answers that lead through an assignment without assigning x. */
  lemma SkippingRun(targets: seq<Target>, value: Expr, x: Name, ops: Operators, env: Env) returns (w: World)
    requires AssignSkips(targets, value, x, ops)
    ensures w.ops == ops && w.rebinds == {}
    ensures var r := Eval(value, State(env, 0), w);
            && r.Some? && StoreAll(targets, r.value.st, w).Some?
            && Same(env, StoreAll(targets, r.value.st, w).value.env, x)
  {
    hide Eval, StoreAll, Follows, Scripted, Outcomes, TargetsSkip;
    var o :| o in Outcomes(value, x, ops);
    var first, v := Realise(value, x, o, ops);
    var second := RealiseTargets(targets, x, ops);
    w := Quiet(Scripted(first + second), ops);
    ScriptedFollows(first + second);
    FollowsBoth(w.answers, 0, first, second);
    var r := Eval(value, State(env, 0), w);
    assert Ends(r, v, State(env, 0), x, first);
    assert Stores(StoreAll(targets, r.value.st, w), r.value.st, x, second);
  }

  /** The same for an augmented assignment, which stores first. */
  lemma SkippingAugment(t: Target, value: Expr, x: Name, ops: Operators, env: Env) returns (w: World)
    requires TargetSkips(t, x, ops) && Outcomes(value, x, ops) != {}
    ensures w.ops == ops && w.rebinds == {}
    ensures var r := Store(t, State(env, 0), w);
            && r.Some? && Eval(value, r.value, w).Some?
            && Same(env, Eval(value, r.value, w).value.st.env, x)
  {
    hide Eval, Store, Follows, Scripted, Outcomes, TargetSkips;
    var o :| o in Outcomes(value, x, ops);
    var first := RealiseTarget(t, x, ops);
    var second, v := Realise(value, x, o, ops);
    w := Quiet(Scripted(first + second), ops);
    ScriptedFollows(first + second);
    FollowsBoth(w.answers, 0, first, second);
    var r := Store(t, State(env, 0), w);
    assert Stores(r, State(env, 0), x, first);
    assert Ends(Eval(value, r.value, w), v, r.value, x, second);
  }

  lemma SkippedAssign(s: Stmt, targets: seq<Target>, value: Expr, x: Name, ops: Operators, symbols: Symbols)
    requires || (s.Assign? && s.targets == targets && s.value == value)
             || (s.AnnAssign? && !s.target.TupleTarget? && targets == [s.target] && s.optValue == Some(value))
    requires x in TargetsNames(targets) && x in symbols.variables && AssignSkips(targets, value, x, ops)
    ensures !SoundRuns(s, ops, symbols)
  {
    var w := SkippingRun(targets, value, x, ops, map[]);
    var st := State(map[], 0);
    var mid := Eval(value, st, w).value.st;
    if s.AnnAssign? {
      OneTarget(s.target, ops);
      assert targets[1..] == [];
      assert StoreAll(targets, mid, w) == Store(s.target, mid, w);
    }
    assert Exec(s, st, w, 0) == Some(Outcome(Normal, StoreAll(targets, mid, w).value));
    var after := Exec(s, st, w, 0).value.st.env;
    var before := EagerEvents(s, ops);
    FoldAppend(map[], before, Events(TargetsNames(targets), Assignment), symbols);
    AssignedGives(Fold(map[], before, symbols), TargetsNames(targets), symbols, x);
    assert !SoundAt(Fold(map[], StmtEvents(s, ops), symbols), after, x);
    assert Sound(map[], st.env, w.rebinds);
  }

  /** The worst context for an augmented assignment: a definition of that name. */
  lemma SkippedAugment(s: Stmt, x: Name, ops: Operators, symbols: Symbols)
    requires s.AugAssign? && !s.target.NameTarget?
    requires x in TargetNames(s.target) && x in symbols.variables && AugmentSkips(s.target, s.value, x, ops)
    ensures !SoundRuns(s, ops, symbols)
  {
    var env: Env, table: Table := map[x := Definition(0)], map[x := Definite(Definition(0))];
    var w := SkippingAugment(s.target, s.value, x, ops, env);
    var st := State(env, 0);
    var mid := Store(s.target, st, w).value;
    assert Exec(s, st, w, 0) == Some(Outcome(Normal, Eval(s.value, mid, w).value.st));
    var before := EagerEvents(s, ops);
    NamedAppend(TargetEvents(s.target, ops), ExprEvents(s.value, true, ops));
    FoldFrame(table, before, symbols, x);
    FoldAppend(table, before, Events(TargetNames(s.target), Augmented), symbols);
    AugmentedGives(Fold(table, before, symbols), TargetNames(s.target), symbols, x);
    assert !SoundAt(Fold(table, StmtEvents(s, ops), symbols), Exec(s, st, w, 0).value.st.env, x);
    assert Sound(table, st.env, w.rebinds);
  }

  lemma NothingIsEmpty(iter: Expr)
    requires IteratesNothing(iter)
    ensures iter.Display? && iter.elts == []
  {
    assert iter.elts != [] ==> LiteralValues(iter.elts) != Some([]);
  }

  /** The subscripts of a loop's target never run when there is nothing to iterate. */
  lemma SkippedLoop(s: Stmt, ops: Operators, symbols: Symbols)
    requires s.For? && IteratesNothing(s.iter) && s.orelse == [] && !LeavesUnsure(TargetEvents(s.target, ops), symbols)
    ensures !SoundRuns(s, ops, symbols)
  {
    var w, st := FalseWorld(ops), State(map[], 0);
    var events := TargetEvents(s.target, ops);
    NothingIsEmpty(s.iter);
    assert ExprEvents(s.iter, true, ops) == [];
    assert StmtEvents(s, ops) == events;
    assert Eval(s.iter, st, w) == Some(Evaluated(Sequence(s.iter.isTuple, []), st));
    AskQuiet(w.answers, ops, st);
    assert RunFor(s, Sequence(s.iter.isTuple, []), st, w, 1) == ExecAll([], State(map[], 1), w, 0);
    assert Exec(s, st, w, 1) == Some(Outcome(Normal, State(map[], 1)));
    var folded := Fold(map[], events, symbols);
    var x :| x in folded && folded[x] != Unsure;
    assert !SoundAt(folded, map[], x);
    assert Sound(map[], st.env, w.rebinds);
  }

  function FalseWorld(ops: Operators): World {
    Quiet(_ => Object(0, false), ops)
  }

  // ---------- names that functions rebind ----------

  /** `f()` */
  function CallStmt(): Stmt {
    ExprStmt(Other([]))
  }

  ghost predicate CallKeepsRight(table: Table, names: set<Name>, ops: Operators, symbols: Symbols) {
    forall st: State, w: World, fuel: nat | w.ops == ops && w.rebinds <= names && Sound(table, st.env, {}) ::
      Sound(Fold(table, StmtEvents(CallStmt(), ops), symbols), Exec(CallStmt(), st, w, fuel).value.st.env, {})
  }

  lemma CallRuns(st: State, w: World, fuel: nat)
    ensures Exec(CallStmt(), st, w, fuel) == Some(Outcome(Normal, Ask(st, w).st)) && StmtEvents(CallStmt(), w.ops) == []
  {
  }

  /** A call leaves a right table right exactly when all names that functions declare global are unsure in it. */
  lemma CallExact(table: Table, names: set<Name>, ops: Operators, symbols: Symbols)
    ensures CallKeepsRight(table, names, ops, symbols) <==> UnsureOf(table, names)
  {
    if UnsureOf(table, names) {
      forall st: State, w: World, fuel: nat | w.ops == ops && w.rebinds <= names && Sound(table, st.env, {})
        ensures Sound(Fold(table, StmtEvents(CallStmt(), ops), symbols), Exec(CallStmt(), st, w, fuel).value.st.env, {})
      {
        CallRuns(st, w, fuel);
        AskTouches(st, w);
        forall x
          ensures SoundAt(table, Ask(st, w).st.env, x)
        {
          assert SoundAt(table, st.env, x);
          assert x !in names ==> Same(st.env, Ask(st, w).st.env, x);
        }
      }
    } else {
      var x :| x in names && !(x in table && table[x] == Unsure);
      CallBreaks(table, names, ops, symbols, x);
    }
  }

  lemma CallBreaks(table: Table, names: set<Name>, ops: Operators, symbols: Symbols, x: Name)
    requires x in names && (x in table ==> table[x].Definite?)
    ensures !CallKeepsRight(table, names, ops, symbols)
  {
    var env: Env := map y | y in table && table[y].Definite? :: table[y].origin;
    var st := State(env, 0);
    var effect: Effect := map[x := if x in table then None else Some(Variable)];
    var w := World(_ => Object(0, true), ops, {x}, _ => effect);
    assert Sound(table, env, {});
    CallRuns(st, w, 0);
    assert Ask(st, w).st.env == Disturb(env, effect, {x});
    assert !SoundAt(table, Ask(st, w).st.env, x);
  }

  /** `def f(): global y; y = 1` and a call of it. */
  function RebindingBody(): seq<Stmt> {
    [FunctionDef("f", 1, {"y"}), CallStmt()]
  }

  function RebindingWorld(ops: Operators): World {
    World(_ => Object(0, true), ops, {"y"}, _ => map["y" := Some(Variable)])
  }

  /** The call binds y, which the analysis never heard of: it reads the body of the function for no binding. */
  lemma RebindingUnrecorded(ops: Operators)
    ensures RebindingWorld(ops).rebinds <= RebindableNames(RebindingBody())
    ensures var run := ExecAll(RebindingBody(), State(map[], 0), RebindingWorld(ops), 0);
            run.Some? && run.value.how == Normal && "y" in run.value.st.env
    ensures var events := BodyEvents(RebindingBody(), ops);
            "y" !in Fold(map[], events, Symbols(VariableNames(events), {}))
  {
    var body, w := RebindingBody(), RebindingWorld(ops);
    var st := Bind(State(map[], 0), "f", Definition(1));
    assert body[1..] == [CallStmt()] && body[1..][1..] == [];
    CallRuns(st, w, 0);
    assert ExecAll(body[1..], st, w, 0) == Some(Outcome(Normal, Ask(st, w).st));
    var event := Event("f", Defined(1));
    assert StmtEvents(body[0], ops) == [event];
    assert BodyEvents(body[1..], ops) == [];
    var events := BodyEvents(body, ops);
    assert events == [event] && events[1..] == [];
    assert Fold(map[], events, Symbols(VariableNames(events), {})) ==
           Record(map[], event, Symbols(VariableNames(events), {}));
  }

  // ---------- a walrus in the subscript of an assignment target ----------

  /** `a[c and (y := 1)] = 5` */
  function SubscriptWalrus(): Stmt {
    Assign([ItemTarget(Load("a"), BoolOp(true, [Load("c"), Walrus("y", Constant(IntConst(1)))]))], Constant(IntConst(5)))
  }

  lemma SubscriptWalrusSkipped(ops: Operators)
    ensures ExecAll([SubscriptWalrus()], State(map[], 0), FalseWorld(ops), 0) == Some(Outcome(Normal, State(map[], 2)))
  {
    var w, s := FalseWorld(ops), SubscriptWalrus();
    var values := s.targets[0].index.values;
    AskQuiet(w.answers, ops, State(map[], 0));
    AskQuiet(w.answers, ops, State(map[], 1));
    assert EvalBool(true, values, State(map[], 1), w) == Some(Evaluated(Object(0, false), State(map[], 2)));
    assert Store(s.targets[0], State(map[], 0), w) == Some(State(map[], 2));
    assert s.targets[1..] == [] && [s][1..] == [];
    assert StoreAll(s.targets, State(map[], 0), w) == Some(State(map[], 2));
  }

  lemma SubscriptWalrusNames()
    ensures TargetsNames(SubscriptWalrus().targets) == ["y"]
  {
    var targets := SubscriptWalrus().targets;
    var values := targets[0].index.values;
    assert AllNames(values) == ExprNames(values[0]) + AllNames(values[1..]);
    assert AllNames(values[1..]) == ExprNames(values[1]) + AllNames(values[1..][1..]);
    assert ExprNames(values[1]) == ["y"] + [];
    assert TargetsNames(targets) == TargetNames(targets[0]) + TargetsNames(targets[1..]);
  }

  lemma {:induction false} LastEvent(table: Table, events: seq<Event>, symbols: Symbols, event: Event)
    requires events != [] && events[|events| - 1] == event
    ensures var before := Fold(table, events[..|events| - 1], symbols);
            Fold(table, events, symbols) == Record(before, event, symbols)
  {
    var front := events[..|events| - 1];
    assert events == front + [event];
    FoldAppend(table, front, [event], symbols);
    assert [event][1..] == [];
  }

  /** The analysis takes y for assigned; when c is false it is not. */
  lemma SkippedSubscriptWalrus(ops: Operators)
    ensures var run := ExecAll([SubscriptWalrus()], State(map[], 0), FalseWorld(ops), 0);
            run.Some? && run.value.how == Normal && "y" !in run.value.st.env
    ensures var events := BodyEvents([SubscriptWalrus()], ops);
            var table := Fold(map[], events, Symbols(VariableNames(events), {}));
            "y" in table && table["y"] == Definite(Variable)
  {
    var s := SubscriptWalrus();
    SubscriptWalrusSkipped(ops);
    SubscriptWalrusNames();
    var event := Event("y", Assignment);
    assert Events(["y"], Assignment) == [event] + Events(["y"][1..], Assignment);
    var events := BodyEvents([s], ops);
    assert [s][1..] == [] && events == StmtEvents(s, ops) + BodyEvents([s][1..], ops);
    assert events[|events| - 1] == event && event in events;
    LastEvent(map[], events, Symbols(VariableNames(events), {}), event);
  }
}
