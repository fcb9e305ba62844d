/** What the table of names promises about every run of the module that finishes normally. */
module BindingSoundness {
  import opened Wrappers
  import opened PythonBodies
  import opened BindingEvents
  import opened BindingRuns
  import opened BindingOutcomes

  // ---------- the main theorem ----------

  /** The names that functions of these statements declare global: calls may rebind them at any time. */
  function RebindableNames(ss: seq<Stmt>): set<Name>
    decreases ss, 1
  {
    if ss == [] then {} else RebindableBy(ss[0]) + RebindableNames(ss[1..])
  }

  function RebindableBy(s: Stmt): set<Name>
    decreases s, 0
  {
    match s
    case FunctionDef(_, _, globals) => globals
    case If(_, body, orelse) => RebindableNames(body) + RebindableNames(orelse)
    case While(_, body, orelse) => RebindableNames(body) + RebindableNames(orelse)
    case For(_, _, body, orelse) => RebindableNames(body) + RebindableNames(orelse)
    case _ => {}
  }

  /** No run of `targets = value` finishes without assigning a name that is recorded as assigned. */
  ghost predicate AssignsAll(targets: seq<Target>, value: Expr, ops: Operators, symbols: Symbols) {
    forall x :: x in TargetsNames(targets) && x in symbols.variables ==> !AssignSkips(targets, value, x, ops)
  }

  /** An augmented assignment can finish without assigning x, and nothing in it has made x unsure. */
  ghost predicate AugmentSkips(t: Target, value: Expr, x: Name, ops: Operators) {
    && x !in Named(TargetEvents(t, ops)) && x !in Named(ExprEvents(value, true, ops))
    && TargetSkips(t, x, ops) && Outcomes(value, x, ops) != {}
  }

  /** Recording these events makes no name definite. */
  ghost predicate LeavesUnsure(events: seq<Event>, symbols: Symbols) {
    forall x :: x in Fold(map[], events, symbols) ==> Fold(map[], events, symbols)[x] == Unsure
  }

  /** No statement visited with certainty can skip a walrus in a target. */
  ghost predicate NothingSkipped(s: Stmt, ops: Operators, symbols: Symbols)
    decreases s, 0
  {
    match s
    case Assign(targets, value) => AssignsAll(targets, value, ops, symbols)
    case AnnAssign(target, optValue) =>
      optValue.None? || target.TupleTarget? || AssignsAll([target], optValue.value, ops, symbols)
    case AugAssign(target, value) =>
      target.NameTarget? ||
      forall x :: x in TargetNames(target) && x in symbols.variables ==> !AugmentSkips(target, value, x, ops)
    case If(test, body, orelse) =>
      (LiteralTruth(test) == Some(true) ==> NothingSkippedIn(body, ops, symbols)) &&
      (LiteralTruth(test) == Some(false) ==> NothingSkippedIn(orelse, ops, symbols))
    case While(test, _, orelse) => LiteralTruth(test) == Some(false) ==> NothingSkippedIn(orelse, ops, symbols)
    case For(target, iter, _, orelse) =>
      IteratesNothing(iter) ==> LeavesUnsure(TargetEvents(target, ops), symbols) && NothingSkippedIn(orelse, ops, symbols)
    case _ => true
  }

  ghost predicate NothingSkippedIn(ss: seq<Stmt>, ops: Operators, symbols: Symbols)
    decreases ss, 1
  {
    forall s :: s in ss ==> NothingSkipped(s, ops, symbols)
  }

  lemma OneTarget(t: Target, ops: Operators)
    ensures TargetsNames([t]) == TargetNames(t)
    ensures TargetsEvents([t], ops) == TargetEvents(t, ops)
  {
    assert [t][1..] == [];
  }

  lemma NameAlwaysAssigned(t: Target, value: Expr, ops: Operators, symbols: Symbols)
    requires t.NameTarget?
    ensures AssignsAll([t], value, ops, symbols)
  {
    OneTarget(t, ops);
    forall x | x in TargetsNames([t])
      ensures !AssignSkips([t], value, x, ops)
    {
      assert !TargetSkips([t][0], x, ops);
    }
  }

  /** Stores into targets: the recorded names are bound, everything else is as the events before say. */
  lemma StoreSound(before: seq<Event>, value: seq<Event>, names: seq<Name>, kind: Kind, table: Table, symbols: Symbols,
                   env: Env, after: Env, free: set<Name>)
    requires kind == Assignment || kind == Augmented
    requires Named(before) <= Members(names)
    requires Sound(Fold(table, value, symbols), env, free)
    requires forall x :: x in Members(names) && x in symbols.variables && x !in free ==> BoundVariable(after, x)
    requires Touches(env, after, Members(names) + free)
    ensures Sound(Fold(table, before + value + Events(names, kind), symbols), after, free)
  {
    var stores := Events(names, kind);
    NamedEvents(names, kind);
    FoldAppend(table, before, value, symbols);
    FoldAppend(table, before + value, stores, symbols);
    var folded := Fold(table, before + value, symbols);
    forall x | x !in free
      ensures SoundAt(Fold(folded, stores, symbols), after, x)
    {
      if x in Members(names) {
        StoresGiveVariables(folded, stores, symbols, x);
      } else {
        FoldFrame(folded, stores, symbols, x);
        FoldFrame(table, before, symbols, x);
        FoldLocal(table, Fold(table, before, symbols), value, symbols, x);
        assert SoundAt(Fold(table, value, symbols), env, x) && Same(env, after, x);
      }
    }
  }

  lemma {:induction false} StoresGiveVariables(table: Table, stores: seq<Event>, symbols: Symbols, x: Name)
    requires forall e :: e in stores ==> e.kind == Assignment || e.kind == Augmented
    requires x in Named(stores)
    ensures var folded := Fold(table, stores, symbols);
            x in folded && (folded[x].Definite? ==> folded[x].origin == Variable && x in symbols.variables)
    decreases |stores|
  {
    assert stores[0] in stores;
    var next := Record(table, stores[0], symbols);
    if x in Named(stores[1..]) {
      StoresGiveVariables(next, stores[1..], symbols, x);
    } else {
      FoldFrame(next, stores[1..], symbols, x);
    }
  }

  /** Assignments evaluate the value first and then store it. */
  lemma AssignSound(s: Stmt, targets: seq<Target>, value: Expr, st: State, w: World, table: Table, symbols: Symbols)
    requires Eval(value, st, w).Some? && StoreAll(targets, Eval(value, st, w).value.st, w).Some?
    requires Sound(table, st.env, w.rebinds)
    requires EagerEvents(s, w.ops) == TargetsEvents(targets, w.ops) + ExprEvents(value, true, w.ops)
    requires AssignsAll(targets, value, w.ops, symbols)
    ensures var after := StoreAll(targets, Eval(value, st, w).value.st, w).value.env;
            forall kind :: kind == Assignment || kind == Augmented ==>
              Sound(Fold(table, EagerEvents(s, w.ops) + Events(TargetsNames(targets), kind), symbols), after, w.rebinds)
  {
    var mid := Eval(value, st, w).value.st;
    var after := StoreAll(targets, mid, w).value.env;
    var events := ExprEvents(value, true, w.ops);
    ExprRuns(value, true, st, w, table, symbols);
    HappenedSound(events, table, symbols, st.env, mid.env, w.rebinds);
    StoreAllEffect(targets, mid, w);
    TargetsEventsNamed(targets, w.ops);
    forall x | x in Members(TargetsNames(targets)) && x in symbols.variables && x !in w.rebinds
      ensures BoundVariable(after, x)
    {
      if Unassigned(after, x) {
        TargetsCovered(targets, mid, w, x);
        RunCovered(value, st, w, x);
        assert false;
      }
    }
    AssignsTouches(mid.env, after, Members(TargetsNames(targets)), Members(TargetsNames(targets)) + w.rebinds, w.rebinds);
    forall kind | kind == Assignment || kind == Augmented
      ensures Sound(Fold(table, EagerEvents(s, w.ops) + Events(TargetsNames(targets), kind), symbols), after, w.rebinds)
    {
      StoreSound(TargetsEvents(targets, w.ops), events, TargetsNames(targets), kind, table, symbols, mid.env, after, w.rebinds);
    }
  }

  /** A definite entry left by marks was left by a definite one. */
  lemma {:induction false} MarkedDefinite(table: Table, events: seq<Event>, symbols: Symbols, x: Name)
    requires OnlyMarks(events) && x in Named(events)
    requires var folded := Fold(table, events, symbols); x in folded && folded[x].Definite?
    ensures Event(x, Assignment) in events
    decreases |events|
  {
    assert events[0] in events;
    var next := Record(table, events[0], symbols);
    if x in Named(events[1..]) {
      MarkedDefinite(next, events[1..], symbols, x);
    } else {
      FoldFrame(next, events[1..], symbols, x);
    }
  }

  /** Augmented stores make a name unsure unless it was definite before. */
  lemma {:induction false} AugmentedGives(table: Table, names: seq<Name>, symbols: Symbols, x: Name)
    requires x in names
    ensures var folded := Fold(table, Events(names, Augmented), symbols);
            x in folded &&
            folded[x] == if x in symbols.variables && x in table && table[x].Definite? then Definite(Variable) else Unsure
    decreases |names|
  {
    var next := Record(table, Event(names[0], Augmented), symbols);
    var rest := Events(names[1..], Augmented);
    assert Events(names, Augmented) == [Event(names[0], Augmented)] + rest;
    assert ([Event(names[0], Augmented)] + rest)[1..] == rest;
    if x in names[1..] {
      AugmentedGives(next, names[1..], symbols, x);
    } else {
      NamedEvents(names[1..], Augmented);
      FoldFrame(next, rest, symbols, x);
    }
  }

  /** A recorded name of an augmented assignment that ends up definite has been assigned. */
  lemma AugmentedIsBound(t: Target, value: Expr, st: State, w: World, table: Table, symbols: Symbols, x: Name)
    requires Store(t, st, w).Some? && Eval(value, Store(t, st, w).value, w).Some?
    requires x !in w.rebinds && x in TargetNames(t) && x in symbols.variables && !AugmentSkips(t, value, x, w.ops)
    requires var folded := Fold(table, TargetEvents(t, w.ops) + ExprEvents(value, true, w.ops), symbols);
             x in folded && folded[x].Definite?
    ensures BoundVariable(Eval(value, Store(t, st, w).value, w).value.st.env, x)
  {
    var before, events := TargetEvents(t, w.ops), ExprEvents(value, true, w.ops);
    var mid := Store(t, st, w).value;
    var after := Eval(value, mid, w).value.st.env;
    NamedAppend(before, events);
    if x in Named(before + events) {
      TargetOnlyMarks(t, w.ops);
      ExprEventsMarks(value, true, w.ops);
      MarkedDefinite(table, before + events, symbols, x);
      StoreEffect(t, st, w);
      ExprEffect(value, true, mid, w);
      if Event(x, Assignment) in before {
        KeepsBound(mid.env, after, Named(events), x, w.rebinds);
      }
    } else if Unassigned(after, x) {
      StillUnassigned(value, mid, w, x);
      TargetCovered(t, st, w, x);
      RunCovered(value, mid, w, x);
      assert false;
    }
  }

  /** Augmented assignments to anything but a name evaluate the target first. */
  lemma AugmentSound(s: Stmt, st: State, w: World, fuel: nat, table: Table, symbols: Symbols)
    requires s.AugAssign? && !s.target.NameTarget? && Exec(s, st, w, fuel).Some?
    requires Sound(table, st.env, w.rebinds) && NothingSkipped(s, w.ops, symbols)
    ensures Sound(Fold(table, StmtEvents(s, w.ops), symbols), Exec(s, st, w, fuel).value.st.env, w.rebinds)
  {
    var names := TargetNames(s.target);
    var mid := Store(s.target, st, w).value;
    var after := Eval(s.value, mid, w).value.st.env;
    var before, events := TargetEvents(s.target, w.ops), ExprEvents(s.value, true, w.ops);
    StoreEffect(s.target, st, w);
    TargetEventsNamed(s.target, w.ops);
    AssignsTouches(st.env, mid.env, Members(names), Members(names) + w.rebinds, w.rebinds);
    // The names of the target are taken as unknown while the value is evaluated.
    var blurred := Fold(table, Events(names, Uncertain), symbols);
    NamedEvents(names, Uncertain);
    Havoc(table, Events(names, Uncertain), symbols, st.env, mid.env, w.rebinds);
    ExprRuns(s.value, true, mid, w, blurred, symbols);
    HappenedSound(events, blurred, symbols, mid.env, after, w.rebinds);
    var stores := Events(names, Augmented);
    NamedEvents(names, Augmented);
    FoldAppend(table, before, events, symbols);
    FoldAppend(table, before + events, stores, symbols);
    var folded := Fold(table, before + events, symbols);
    forall x | x !in w.rebinds
      ensures SoundAt(Fold(folded, stores, symbols), after, x)
    {
      if x in Members(names) {
        AugmentedGives(folded, names, symbols, x);
        if x in symbols.variables && x in folded && folded[x].Definite? {
          AugmentedIsBound(s.target, s.value, st, w, table, symbols, x);
        }
      } else {
        FoldFrame(folded, stores, symbols, x);
        FoldFrame(table, before, symbols, x);
        FoldFrame(table, Events(names, Uncertain), symbols, x);
        FoldLocal(blurred, Fold(table, before, symbols), events, symbols, x);
        assert SoundAt(Fold(blurred, events, symbols), after, x);
      }
    }
  }

  /** The table once the names of a loop body are uncertain. */
  ghost function Blur(table: Table, names: seq<Name>, symbols: Symbols): Table {
    Fold(table, Events(names, Uncertain), symbols)
  }

  lemma BlurSound(table: Table, names: seq<Name>, symbols: Symbols, env: Env, after: Env, free: set<Name>)
    requires Sound(table, env, free) && Touches(env, after, Members(names) + free)
    ensures Sound(Blur(table, names, symbols), after, free)
  {
    NamedEvents(names, Uncertain);
    Havoc(table, Events(names, Uncertain), symbols, env, after, free);
  }

  /** Blurring before or after some events makes no difference to what it promises. */
  lemma BlurredSound(table: Table, events: seq<Event>, names: seq<Name>, symbols: Symbols, env: Env, free: set<Name>)
    requires Sound(Fold(Blur(table, names, symbols), events, symbols), env, free)
    ensures Sound(Blur(Fold(table, events, symbols), names, symbols), env, free)
  {
    var blur := Events(names, Uncertain);
    NamedEvents(names, Uncertain);
    var folded := Fold(table, events, symbols);
    forall x | x !in free
      ensures SoundAt(Blur(folded, names, symbols), env, x)
    {
      if x in Named(blur) {
        FoldUncertain(folded, blur, symbols, x);
      } else {
        FoldFrame(folded, blur, symbols, x);
        FoldFrame(table, blur, symbols, x);
        FoldLocal(Blur(table, names, symbols), table, events, symbols, x);
        assert SoundAt(Fold(Blur(table, names, symbols), events, symbols), env, x);
      }
    }
  }

  /** However often a loop runs its test and body, the test's events need to be recorded only once. */
  lemma {:induction false} WhileSound(s: Stmt, st: State, w: World, fuel: nat, table: Table, symbols: Symbols)
    requires s.While? && RunWhile(s, st, w, fuel).Some?
    requires Sound(Blur(table, UncertainNames(s), symbols), st.env, w.rebinds)
    ensures var events := ExprEvents(s.test, true, w.ops);
            Sound(Blur(Fold(table, events, symbols), UncertainNames(s), symbols), RunWhile(s, st, w, fuel).value.st.env, w.rebinds)
    decreases fuel
  {
    var names := UncertainNames(s);
    var events := ExprEvents(s.test, true, w.ops);
    var t := Eval(s.test, st, w).value;
    var after := RunWhile(s, st, w, fuel).value.st.env;
    var folded := Fold(table, events, symbols);
    ExprRuns(s.test, true, st, w, Blur(table, names, symbols), symbols);
    HappenedSound(events, Blur(table, names, symbols), symbols, st.env, t.st.env, w.rebinds);
    BlurredSound(table, events, names, symbols, t.st.env, w.rebinds);
    MembersAppend(CollectedFrom(s.body), CollectedFrom(s.orelse));
    if !Truth(t.v) {
      BodyTouches(s.orelse, t.st, w, fuel - 1, Members(names) + w.rebinds);
      BlurTwice(folded, names, symbols, t.st.env, after, w.rebinds);
    } else {
      BodyTouches(s.body, t.st, w, fuel - 1, Members(names) + w.rebinds);
      var b := ExecAll(s.body, t.st, w, fuel - 1).value;
      BlurTwice(folded, names, symbols, t.st.env, b.st.env, w.rebinds);
      if b.how != Broke {
        WhileSound(s, b.st, w, fuel - 1, folded, symbols);
        ExprEventsMarks(s.test, true, w.ops);
        FoldTwice(table, events, symbols);
      }
    }
  }

  lemma BlurTwice(table: Table, names: seq<Name>, symbols: Symbols, env: Env, after: Env, free: set<Name>)
    requires Sound(Blur(table, names, symbols), env, free) && Touches(env, after, Members(names) + free)
    ensures Sound(Blur(table, names, symbols), after, free)
  {
    var blur := Events(names, Uncertain);
    NamedEvents(names, Uncertain);
    BlurSound(Blur(table, names, symbols), names, symbols, env, after, free);
    FoldTwice(table, blur, symbols);
  }

  /** A loop over something: the target may have been stored to any number of times. */
  lemma ForSound(s: Stmt, st: State, w: World, fuel: nat, table: Table, symbols: Symbols)
    requires s.For? && !IteratesNothing(s.iter) && Exec(s, st, w, fuel).Some? && Sound(table, st.env, w.rebinds)
    ensures Sound(Fold(table, StmtEvents(s, w.ops), symbols), Exec(s, st, w, fuel).value.st.env, w.rebinds)
  {
    var names := UncertainNames(s);
    var before, events := TargetEvents(s.target, w.ops), ExprEvents(s.iter, true, w.ops);
    var r := Eval(s.iter, st, w).value;
    var after := Exec(s, st, w, fuel).value.st.env;
    ExprRuns(s.iter, true, st, w, table, symbols);
    HappenedSound(events, table, symbols, st.env, r.st.env, w.rebinds);
    MembersAppend(TargetNames(s.target) + CollectedFrom(s.body), CollectedFrom(s.orelse));
    MembersAppend(TargetNames(s.target), CollectedFrom(s.body));
    ForTouches(s, r.v, r.st, w, fuel, Members(names) + w.rebinds);
    TargetEventsNamed(s.target, w.ops);
    var blur := Events(names, Uncertain);
    NamedEvents(names, Uncertain);
    FoldAppend(table, before, events, symbols);
    FoldAppend(table, before + events, blur, symbols);
    var folded := Fold(table, before + events, symbols);
    forall x | x !in w.rebinds
      ensures SoundAt(Fold(folded, blur, symbols), after, x)
    {
      if x in Members(names) {
        FoldUncertain(folded, blur, symbols, x);
      } else {
        FoldFrame(folded, blur, symbols, x);
        FoldFrame(table, before, symbols, x);
        FoldLocal(table, Fold(table, before, symbols), events, symbols, x);
        assert SoundAt(Fold(table, events, symbols), r.st.env, x) && Same(r.st.env, after, x);
      }
    }
  }

  /** A loop over nothing: neither its target nor its body has run. */
  lemma ForNothingRuns(s: Stmt, st: State, w: World, fuel: nat)
    requires s.For? && IteratesNothing(s.iter) && Exec(s, st, w, fuel).Some?
    ensures Eval(s.iter, st, w).Some? && fuel > 0
    ensures Exec(s, st, w, fuel) == ExecAll(s.orelse, Ask(Eval(s.iter, st, w).value.st, w).st, w, fuel - 1)
  {
    LiteralRuns(s.iter, st, w);
  }

  /** Events that did not happen may be recorded if they make no name definite. */
  lemma SkippedEvents(table: Table, events: seq<Event>, symbols: Symbols, env: Env, free: set<Name>)
    requires OnlyMarks(events) && LeavesUnsure(events, symbols) && Sound(table, env, free)
    ensures Sound(Fold(table, events, symbols), env, free)
  {
    forall x | x !in free
      ensures SoundAt(Fold(table, events, symbols), env, x)
    {
      assert SoundAt(table, env, x);
      if x in Named(events) {
        FoldForgets(table, map[], events, symbols, x);
        FoldRecords(map[], events, symbols, x);
      } else {
        FoldFrame(table, events, symbols, x);
      }
    }
  }

  lemma {:induction false} FoldRecords(table: Table, events: seq<Event>, symbols: Symbols, x: Name)
    requires x in Named(events) || x in table
    ensures x in Fold(table, events, symbols)
    decreases |events|
  {
    if events != [] {
      FoldRecords(Record(table, events[0], symbols), events[1..], symbols, x);
    }
  }

  lemma ForNothingEager(s: Stmt, st: State, w: World, table: Table, symbols: Symbols)
    requires s.For? && Eval(s.iter, st, w).Some? && Sound(table, st.env, w.rebinds)
    requires LeavesUnsure(TargetEvents(s.target, w.ops), symbols) && OnlyMarks(TargetEvents(s.target, w.ops))
    ensures Sound(Fold(table, EagerEvents(s, w.ops), symbols), Eval(s.iter, st, w).value.st.env, w.rebinds)
  {
    var before, events := TargetEvents(s.target, w.ops), ExprEvents(s.iter, true, w.ops);
    var table1 := Fold(table, before, symbols);
    SkippedEvents(table, before, symbols, st.env, w.rebinds);
    ExprRuns(s.iter, true, st, w, table1, symbols);
    HappenedSound(events, table1, symbols, st.env, Eval(s.iter, st, w).value.st.env, w.rebinds);
    FoldAppend(table, before, events, symbols);
  }

  lemma {:induction false} TargetOnlyMarks(t: Target, ops: Operators)
    ensures OnlyMarks(TargetEvents(t, ops))
    decreases t, 0
  {
    match t
    case NameTarget(_) =>
    case ItemTarget(base, index) =>
      ExprEventsMarks(base, true, ops);
      ExprEventsMarks(index, true, ops);
    case TupleTarget(elts) => TargetsOnlyMarks(elts, ops);
  }

  lemma {:induction false} TargetsOnlyMarks(ts: seq<Target>, ops: Operators)
    ensures OnlyMarks(TargetsEvents(ts, ops))
    decreases ts, 1
  {
    if ts != [] {
      TargetOnlyMarks(ts[0], ops);
      TargetsOnlyMarks(ts[1..], ops);
    }
  }

  lemma {:induction false} StmtSound(s: Stmt, st: State, w: World, fuel: nat, table: Table, symbols: Symbols)
    requires Exec(s, st, w, fuel).Some? && Exec(s, st, w, fuel).value.how == Normal
    requires Sound(table, st.env, w.rebinds) && NothingSkipped(s, w.ops, symbols)
    ensures Sound(Fold(table, StmtEvents(s, w.ops), symbols), Exec(s, st, w, fuel).value.st.env, w.rebinds)
    decreases fuel, s, 1
  {
    var after := Exec(s, st, w, fuel).value.st;
    match s
    case ExprStmt(value) =>
      ExprRuns(value, true, st, w, table, symbols);
      HappenedSound(ExprEvents(value, true, w.ops), table, symbols, st.env, after.env, w.rebinds);
      assert StmtEvents(s, w.ops) == ExprEvents(value, true, w.ops);
    case Assign(targets, value) => AssignSound(s, targets, value, st, w, table, symbols);
    case AnnAssign(target, optValue) => AnnAssignSound(s, st, w, fuel, table, symbols);
    case AugAssign(target, value) =>
      if target.NameTarget? {
        OneTarget(target, w.ops);
        NameAlwaysAssigned(target, value, w.ops, symbols);
        assert StoreAll([target], Eval(value, st, w).value.st, w) == Store(target, Eval(value, st, w).value.st, w);
        AssignSound(s, [target], value, st, w, table, symbols);
      } else {
        AugmentSound(s, st, w, fuel, table, symbols);
      }
    case Assert(test, msg) => AssertSound(s, st, w, fuel, table, symbols);
    case FunctionDef(name, id, _) => DefinitionSound(name, id, table, symbols, st.env, w.rebinds);
    case If(test, body, orelse) =>
      var events := ExprEvents(test, true, w.ops);
      var table1 := Fold(table, events, symbols);
      var r := Eval(test, st, w).value;
      ExprRuns(test, true, st, w, table, symbols);
      HappenedSound(events, table, symbols, st.env, r.st.env, w.rebinds);
      match LiteralTruth(test) {
        case Some(truth) =>
          LiteralTruthRuns(test, st, w);
          var taken := if truth then body else orelse;
          BodySound(taken, r.st, w, fuel, table1, symbols);
          FoldAppend(table, events, BodyEvents(taken, w.ops), symbols);
        case None =>
          MembersAppend(CollectedFrom(body), CollectedFrom(orelse));
          BodyTouches(if Truth(r.v) then body else orelse, r.st, w, fuel, Members(UncertainNames(s)) + w.rebinds);
          BlurSound(table1, UncertainNames(s), symbols, r.st.env, after.env, w.rebinds);
          FoldAppend(table, events, Events(UncertainNames(s), Uncertain), symbols);
      }
    case While(test, body, orelse) =>
      var events := ExprEvents(test, true, w.ops);
      if LiteralTruth(test) == Some(false) {
        var r := Eval(test, st, w).value;
        ExprRuns(test, true, st, w, table, symbols);
        HappenedSound(events, table, symbols, st.env, r.st.env, w.rebinds);
        LiteralTruthRuns(test, st, w);
        BodySound(orelse, r.st, w, fuel - 1, Fold(table, events, symbols), symbols);
        FoldAppend(table, events, BodyEvents(orelse, w.ops), symbols);
      } else {
        BlurSound(table, UncertainNames(s), symbols, st.env, st.env, w.rebinds);
        WhileSound(s, st, w, fuel, table, symbols);
        FoldAppend(table, events, Events(UncertainNames(s), Uncertain), symbols);
      }
    case For(target, iter, body, orelse) =>
      if IteratesNothing(iter) {
        var r := Eval(iter, st, w).value;
        ForNothingRuns(s, st, w, fuel);
        TargetOnlyMarks(target, w.ops);
        ForNothingEager(s, st, w, table, symbols);
        AskTouches(r.st, w);
        SoundDisturbed(Fold(table, EagerEvents(s, w.ops), symbols), r.st.env, Ask(r.st, w).st.env, w.rebinds);
        BodySound(orelse, Ask(r.st, w).st, w, fuel - 1, Fold(table, EagerEvents(s, w.ops), symbols), symbols);
        FoldAppend(table, EagerEvents(s, w.ops), BodyEvents(orelse, w.ops), symbols);
      } else {
        ForSound(s, st, w, fuel, table, symbols);
      }
    case Delete(_) => UnvisitedSound(s, st, w, fuel, table, symbols);
    case Pass => UnvisitedSound(s, st, w, fuel, table, symbols);
    case Break =>
    case Continue =>
  }

  lemma UnvisitedSound(s: Stmt, st: State, w: World, fuel: nat, table: Table, symbols: Symbols)
    requires s.Delete? || s.Pass?
    requires Exec(s, st, w, fuel).Some? && Sound(table, st.env, w.rebinds)
    ensures Sound(Fold(table, StmtEvents(s, w.ops), symbols), Exec(s, st, w, fuel).value.st.env, w.rebinds)
  {
    ExecTouches(s, st, w, fuel, Members(CollectedNames(s)) + w.rebinds);
    BlurSound(table, UncertainNames(s), symbols, st.env, Exec(s, st, w, fuel).value.st.env, w.rebinds);
    assert StmtEvents(s, w.ops) == Events(UncertainNames(s), Uncertain);
  }

  lemma AnnAssignSound(s: Stmt, st: State, w: World, fuel: nat, table: Table, symbols: Symbols)
    requires s.AnnAssign? && Exec(s, st, w, fuel).Some? && Sound(table, st.env, w.rebinds) && NothingSkipped(s, w.ops, symbols)
    ensures Sound(Fold(table, StmtEvents(s, w.ops), symbols), Exec(s, st, w, fuel).value.st.env, w.rebinds)
  {
    var target := s.target;
    OneTarget(target, w.ops);
    if s.optValue.Some? {
      var mid := Eval(s.optValue.value, st, w).value.st;
      assert StoreAll([target], mid, w) == Store(target, mid, w);
      AssignSound(s, [target], s.optValue.value, st, w, table, symbols);
    } else {
      assert StmtEvents(s, w.ops) == TargetEvents(target, w.ops);
      TargetOnlyMarks(target, w.ops);
      if target.ItemTarget? {
        TargetRuns(target, st, w, table, symbols);
      }
    }
  }

  /** Evaluating a target that stores to no plain name. */
  lemma TargetRuns(t: Target, st: State, w: World, table: Table, symbols: Symbols)
    requires Store(t, st, w).Some? && Sound(table, st.env, w.rebinds) && t.ItemTarget?
    ensures Sound(Fold(table, TargetEvents(t, w.ops), symbols), Store(t, st, w).value.env, w.rebinds)
  {
    var b := Eval(t.base, st, w).value;
    var first, second := ExprEvents(t.base, true, w.ops), ExprEvents(t.index, true, w.ops);
    ExprRuns(t.base, true, st, w, table, symbols);
    ExprRuns(t.index, true, b.st, w, Fold(table, first, symbols), symbols);
    HappenedThen(first, second, table, symbols, st.env, b.st.env, Store(t, st, w).value.env, w.rebinds);
  }

  lemma AssertSound(s: Stmt, st: State, w: World, fuel: nat, table: Table, symbols: Symbols)
    requires s.Assert? && Exec(s, st, w, fuel).Some? && Sound(table, st.env, w.rebinds)
    ensures Sound(Fold(table, StmtEvents(s, w.ops), symbols), Exec(s, st, w, fuel).value.st.env, w.rebinds)
  {
    var after := Exec(s, st, w, fuel).value.st.env;
    var events := ExprEvents(s.test, true, w.ops);
    ExprRuns(s.test, true, st, w, table, symbols);
    HappenedSound(events, table, symbols, st.env, after, w.rebinds);
    assert StmtEvents(s, w.ops) == EagerEvents(s, w.ops);
    if s.msg.Some? && LiteralTruth(s.test) != Some(true) {
      var skipped := ExprEvents(s.msg.value, false, w.ops);
      ExprEventsMarks(s.msg.value, false, w.ops);
      Havoc(Fold(table, events, symbols), skipped, symbols, after, after, w.rebinds);
      FoldAppend(table, events, skipped, symbols);
    } else {
      assert events + [] == events;
    }
  }

  lemma DefinitionSound(name: Name, id: nat, table: Table, symbols: Symbols, env: Env, free: set<Name>)
    requires Sound(table, env, free)
    ensures Sound(Fold(table, [] + [Event(name, Defined(id))], symbols), env[name := Definition(id)], free)
  {
    var events := [] + [Event(name, Defined(id))];
    assert events == [Event(name, Defined(id))] && events[1..] == [];
    var folded, after := Fold(table, events, symbols), env[name := Definition(id)];
    assert folded == Fold(Record(table, Event(name, Defined(id)), symbols), [], symbols);
    forall x | x !in free
      ensures SoundAt(folded, after, x)
    {
      assert SoundAt(table, env, x);
    }
  }

  lemma {:induction false} BodySound(ss: seq<Stmt>, st: State, w: World, fuel: nat, table: Table, symbols: Symbols)
    requires ExecAll(ss, st, w, fuel).Some? && ExecAll(ss, st, w, fuel).value.how == Normal
    requires Sound(table, st.env, w.rebinds) && NothingSkippedIn(ss, w.ops, symbols)
    ensures Sound(Fold(table, BodyEvents(ss, w.ops), symbols), ExecAll(ss, st, w, fuel).value.st.env, w.rebinds)
    decreases fuel, ss, 2
  {
    if ss != [] {
      var first := Exec(ss[0], st, w, fuel).value;
      var events := StmtEvents(ss[0], w.ops);
      StmtSound(ss[0], st, w, fuel, table, symbols);
      BodySound(ss[1..], first.st, w, fuel, Fold(table, events, symbols), symbols);
      FoldAppend(table, events, BodyEvents(ss[1..], w.ops), symbols);
    }
  }

  /** Soundness: in every run of a module body that finishes normally, a name with a definite entry
      is bound, by the kind of statement the entry says, and a name without entry is unbound. This is so for
      every name that no function declares global, and for all names if those a function does are unsure. */
  lemma ModuleSound(body: seq<Stmt>, w: World, fuel: nat, clock: nat, symbols: Symbols)
    requires NothingSkippedIn(body, w.ops, symbols) && w.rebinds <= RebindableNames(body)
    requires ExecAll(body, State(map[], clock), w, fuel).Some?
    requires ExecAll(body, State(map[], clock), w, fuel).value.how == Normal
    ensures var table := Fold(map[], BodyEvents(body, w.ops), symbols);
            var after := ExecAll(body, State(map[], clock), w, fuel).value.st.env;
            && Sound(table, after, RebindableNames(body))
            && (UnsureOf(table, RebindableNames(body)) ==> Sound(table, after, {}))
  {
    var table := Fold(map[], BodyEvents(body, w.ops), symbols);
    var after := ExecAll(body, State(map[], clock), w, fuel).value.st.env;
    BodySound(body, State(map[], clock), w, fuel, map[], symbols);
    if UnsureOf(table, RebindableNames(body)) {
      forall x
        ensures SoundAt(table, after, x)
      {
        assert x !in w.rebinds ==> SoundAt(table, after, x);
      }
    }
  }

  ghost predicate UnsureOf(table: Table, names: set<Name>) {
    forall x :: x in names ==> x in table && table[x] == Unsure
  }
}
