/** Which names a statement touches, and what the table says of a name after the last statement that touches it. */
module BindingStores {
  import opened Wrappers
  import opened PythonBodies
  import opened BindingEvents
  import opened BindingRuns
  import opened BindingSoundness
  import opened BindingPrecision

  // ---------- names a statement touches ----------

  /** The target stores to x, or a walrus for x stands somewhere in it. */
  ghost predicate Mentions(t: Target, x: Name, ops: Operators)
    decreases t
  {
    match t
    case NameTarget(y) => x == y
    case ItemTarget(base, index) => Passes(base, x, Anywhere, ops) || Passes(index, x, Anywhere, ops)
    case TupleTarget(elts) => exists i :: 0 <= i < |elts| && Mentions(elts[i], x, ops)
  }

  /** Evaluating the target may pass a walrus for x. */
  ghost predicate TargetPasses(t: Target, x: Name, ops: Operators)
    decreases t
  {
    match t
    case NameTarget(_) => false
    case ItemTarget(base, index) => Passes(base, x, May, ops) || Passes(index, x, May, ops)
    case TupleTarget(elts) => exists i :: 0 <= i < |elts| && TargetPasses(elts[i], x, ops)
  }

  /** The branch that a constant selects, if one does. */
  function SelectedBranch(s: Stmt): Option<seq<Stmt>> {
    match s
    case If(test, body, orelse) =>
      var truth := LiteralTruth(test);
      if truth.None? then None else Some(if truth.value then body else orelse)
    case While(test, _, orelse) => if LiteralTruth(test) == Some(false) then Some(orelse) else None
    case For(_, iter, _, orelse) => if IteratesNothing(iter) then Some(orelse) else None
    case _ => None
  }

  /** The statement stores, binds or deletes x somewhere in it; or where constants allow it to, when it is visited with
      certainty. What an annotated name without a value has, it keeps. */
  ghost predicate Affects(s: Stmt, x: Name, reach: Reach, ops: Operators)
    decreases s, 1
  {
    match s
    case ExprStmt(value) => Passes(value, x, reach, ops)
    case Assign(targets, value) => (exists i :: 0 <= i < |targets| && Mentions(targets[i], x, ops)) || Passes(value, x, reach, ops)
    case AnnAssign(target, None) => if reach.Anywhere? then Mentions(target, x, ops) else TargetPasses(target, x, ops)
    case AnnAssign(target, Some(value)) => Mentions(target, x, ops) || Passes(value, x, reach, ops)
    case AugAssign(target, value) => Mentions(target, x, ops) || Passes(value, x, reach, ops)
    case Assert(test, msg) =>
      || Passes(test, x, reach, ops)
      || (msg.Some? && GoesOn(LiteralTruth(test), false, reach) && Passes(msg.value, x, reach, ops))
    case FunctionDef(name, _, _) => x == name
    case Delete(names) => x in names
    case If(test, body, orelse) => Passes(test, x, reach, ops) || BranchAffects(s, x, reach, ops)
    case While(test, body, orelse) => Passes(test, x, reach, ops) || BranchAffects(s, x, reach, ops)
    case For(target, iter, body, orelse) =>
      || Passes(iter, x, reach, ops)
      || (if reach.Anywhere? || SelectedBranch(s).None? then Mentions(target, x, ops) else TargetPasses(target, x, ops))
      || BranchAffects(s, x, reach, ops)
    case _ => false
  }

  /** One of the branches does: the selected one, or else any. */
  ghost predicate BranchAffects(s: Stmt, x: Name, reach: Reach, ops: Operators)
    requires s.If? || s.While? || s.For?
    decreases s, 0
  {
    var branch := SelectedBranch(s);
    if branch.Some? && !reach.Anywhere? then exists i :: 0 <= i < |branch.value| && Affects(branch.value[i], x, reach, ops)
    else
      || (exists i :: 0 <= i < |s.body| && Affects(s.body[i], x, Anywhere, ops))
      || (exists i :: 0 <= i < |s.orelse| && Affects(s.orelse[i], x, Anywhere, ops))
  }

  lemma RecordsNamed(events: seq<Event>, x: Name)
    ensures Records(events, x, May) <==> x in Named(events)
  {
  }

  lemma EventsRecorded(names: seq<Name>, kind: Kind, x: Name)
    ensures Records(Events(names, kind), x, May) <==> x in names
  {
    NamedEvents(names, kind);
    RecordsNamed(Events(names, kind), x);
    assert x in names <==> x in Members(names);
  }

  lemma {:induction false} TargetRecorded(t: Target, x: Name, ops: Operators)
    ensures Records(TargetEvents(t, ops), x, May) <==> TargetPasses(t, x, ops)
    decreases t, 0
  {
    match t
    case NameTarget(_) =>
    case ItemTarget(base, index) =>
      WalrusesRecorded(base, x, May, true, ops);
      WalrusesRecorded(index, x, May, true, ops);
      RecordsAppend(ExprEvents(base, true, ops), ExprEvents(index, true, ops), x, May);
    case TupleTarget(elts) => TargetsRecorded(elts, x, ops);
  }

  lemma {:induction false} TargetsRecorded(ts: seq<Target>, x: Name, ops: Operators)
    ensures Records(TargetsEvents(ts, ops), x, May) <==> exists i :: 0 <= i < |ts| && TargetPasses(ts[i], x, ops)
    decreases ts, 1
  {
    if ts != [] {
      var rest := ts[1..];
      TargetRecorded(ts[0], x, ops);
      TargetsRecorded(rest, x, ops);
      RecordsAppend(TargetEvents(ts[0], ops), TargetsEvents(rest, ops), x, May);
      if i :| 0 <= i < |rest| && TargetPasses(rest[i], x, ops) {
        assert TargetPasses(ts[i + 1], x, ops);
      }
      if i :| 0 <= i < |ts| && TargetPasses(ts[i], x, ops) {
        assert i > 0 ==> TargetPasses(rest[i - 1], x, ops);
      }
    }
  }

  lemma {:induction false} TargetCollected(t: Target, x: Name, ops: Operators)
    ensures x in TargetNames(t) <==> Mentions(t, x, ops)
    decreases t, 0
  {
    match t
    case NameTarget(_) =>
    case ItemTarget(base, index) =>
      WalrusesCollected(base, x, ops);
      WalrusesCollected(index, x, ops);
    case TupleTarget(elts) => TargetsCollected(elts, x, ops);
  }

  lemma {:induction false} TargetsCollected(ts: seq<Target>, x: Name, ops: Operators)
    ensures x in TargetsNames(ts) <==> exists i :: 0 <= i < |ts| && Mentions(ts[i], x, ops)
    decreases ts, 1
  {
    if ts != [] {
      var rest := ts[1..];
      TargetCollected(ts[0], x, ops);
      TargetsCollected(rest, x, ops);
      if i :| 0 <= i < |rest| && Mentions(rest[i], x, ops) {
        assert Mentions(ts[i + 1], x, ops);
      }
      if i :| 0 <= i < |ts| && Mentions(ts[i], x, ops) {
        assert i > 0 ==> Mentions(rest[i - 1], x, ops);
      }
    }
  }

  /** Exactly the names that are stored, bound or deleted somewhere are collected. */
  lemma {:induction false} CollectedMeans(s: Stmt, x: Name, ops: Operators)
    ensures x in CollectedNames(s) <==> Affects(s, x, Anywhere, ops)
    decreases s, 0
  {
    hide Passes, Mentions, ExprNames, TargetNames, TargetPasses, LiteralTruth, IteratesNothing;
    match s
    case ExprStmt(value) => WalrusesCollected(value, x, ops);
    case Assign(targets, value) =>
      TargetsCollected(targets, x, ops);
      WalrusesCollected(value, x, ops);
    case AnnAssign(target, optValue) =>
      TargetCollected(target, x, ops);
      if optValue.Some? {
        WalrusesCollected(optValue.value, x, ops);
      }
    case AugAssign(target, value) =>
      TargetCollected(target, x, ops);
      WalrusesCollected(value, x, ops);
    case Assert(test, msg) =>
      WalrusesCollected(test, x, ops);
      if msg.Some? {
        WalrusesCollected(msg.value, x, ops);
      }
    case If(test, body, orelse) =>
      WalrusesCollected(test, x, ops);
      CollectedFromMeans(body, x, ops);
      CollectedFromMeans(orelse, x, ops);
    case While(test, body, orelse) =>
      WalrusesCollected(test, x, ops);
      CollectedFromMeans(body, x, ops);
      CollectedFromMeans(orelse, x, ops);
    case For(target, iter, body, orelse) =>
      TargetCollected(target, x, ops);
      WalrusesCollected(iter, x, ops);
      CollectedFromMeans(body, x, ops);
      CollectedFromMeans(orelse, x, ops);
    case _ =>
  }

  lemma {:induction false} CollectedFromMeans(ss: seq<Stmt>, x: Name, ops: Operators)
    ensures x in CollectedFrom(ss) <==> exists i :: 0 <= i < |ss| && Affects(ss[i], x, Anywhere, ops)
    decreases ss, 1
  {
    if ss != [] {
      var rest := ss[1..];
      CollectedMeans(ss[0], x, ops);
      CollectedFromMeans(rest, x, ops);
      hide CollectedNames, Affects;
      if i :| 0 <= i < |rest| && Affects(rest[i], x, Anywhere, ops) {
        assert Affects(ss[i + 1], x, Anywhere, ops);
      }
      if i :| 0 <= i < |ss| && Affects(ss[i], x, Anywhere, ops) {
        assert i > 0 ==> Affects(rest[i - 1], x, Anywhere, ops);
      }
    }
  }

  // ---------- exactly these names are recorded ----------

  lemma StoreRecorded(target: seq<Event>, value: Expr, names: seq<Name>, kind: Kind, x: Name, ops: Operators)
    requires x in Named(target) ==> x in names
    ensures Records((target + ExprEvents(value, true, ops)) + Events(names, kind), x, May) <==> x in names || Passes(value, x, May, ops)
  {
    hide Records, Passes, ExprEvents, Events;
    WalrusesRecorded(value, x, May, true, ops);
    EventsRecorded(names, kind, x);
    RecordsNamed(target, x);
    RecordsAppend(target, ExprEvents(value, true, ops), x, May);
    RecordsAppend(target + ExprEvents(value, true, ops), Events(names, kind), x, May);
  }

  lemma AssertRecorded(s: Stmt, x: Name, ops: Operators)
    requires s.Assert?
    ensures Records(StmtEvents(s, ops), x, May) <==> Affects(s, x, May, ops)
  {
    WalrusesRecorded(s.test, x, May, true, ops);
    var test := ExprEvents(s.test, true, ops);
    if s.msg.Some? && LiteralTruth(s.test) != Some(true) {
      WalrusesRecorded(s.msg.value, x, May, false, ops);
      RecordsAppend(test, ExprEvents(s.msg.value, false, ops), x, May);
      assert StmtEvents(s, ops) == test + ExprEvents(s.msg.value, false, ops);
    } else {
      assert StmtEvents(s, ops) == test;
    }
  }

  lemma IdleRecorded(s: Stmt, x: Name, ops: Operators)
    requires s.Pass? || s.Break? || s.Continue?
    ensures Records(StmtEvents(s, ops), x, May) <==> Affects(s, x, May, ops)
  {
  }

  lemma SimpleRecorded(s: Stmt, x: Name, ops: Operators)
    requires !s.If? && !s.While? && !s.For?
    ensures Records(StmtEvents(s, ops), x, May) <==> Affects(s, x, May, ops)
  {
    hide Records;
    match s
    case ExprStmt(value) =>
      WalrusesRecorded(value, x, May, true, ops);
      assert StmtEvents(s, ops) == ExprEvents(value, true, ops);
    case Assign(targets, value) =>
      TargetsEventsNamed(targets, ops);
      TargetsCollected(targets, x, ops);
      StoreRecorded(TargetsEvents(targets, ops), value, TargetsNames(targets), Assignment, x, ops);
    case AnnAssign(target, None) =>
      TargetRecorded(target, x, ops);
      assert StmtEvents(s, ops) == TargetEvents(target, ops);
    case AnnAssign(target, Some(value)) =>
      TargetEventsNamed(target, ops);
      TargetCollected(target, x, ops);
      StoreRecorded(TargetEvents(target, ops), value, TargetNames(target), Assignment, x, ops);
    case AugAssign(target, value) =>
      TargetEventsNamed(target, ops);
      TargetCollected(target, x, ops);
      StoreRecorded(TargetEvents(target, ops), value, TargetNames(target), Augmented, x, ops);
    case Assert(_, _) => AssertRecorded(s, x, ops);
    case FunctionDef(name, id, _) =>
      assert StmtEvents(s, ops) == [Event(name, Defined(id))];
      RecordsOne(Event(name, Defined(id)), x, May);
    case Delete(names) =>
      EventsRecorded(names, Uncertain, x);
      assert StmtEvents(s, ops) == Events(names, Uncertain);
    case Pass => IdleRecorded(s, x, ops);
    case Break => IdleRecorded(s, x, ops);
    case Continue => IdleRecorded(s, x, ops);
    case _ =>
  }

  /** The expressions of a compound statement itself, visited before its branches. */
  ghost predicate HeadPasses(s: Stmt, x: Name, ops: Operators)
    requires s.If? || s.While? || s.For?
  {
    if s.For? then TargetPasses(s.target, x, ops) || Passes(s.iter, x, May, ops) else Passes(s.test, x, May, ops)
  }

  lemma HeadRecorded(s: Stmt, x: Name, ops: Operators)
    requires s.If? || s.While? || s.For?
    ensures Records(EagerEvents(s, ops), x, May) <==> HeadPasses(s, x, ops)
  {
    hide Records;
    if s.For? {
      TargetRecorded(s.target, x, ops);
      WalrusesRecorded(s.iter, x, May, true, ops);
      RecordsAppend(TargetEvents(s.target, ops), ExprEvents(s.iter, true, ops), x, May);
    } else {
      WalrusesRecorded(s.test, x, May, true, ops);
    }
  }

  lemma PassingIsMentioned(t: Target, x: Name, ops: Operators)
    requires TargetPasses(t, x, ops)
    ensures Mentions(t, x, ops)
  {
    TargetRecorded(t, x, ops);
    RecordsNamed(TargetEvents(t, ops), x);
    TargetEventsNamed(t, ops);
    TargetCollected(t, x, ops);
  }

  lemma UncertainRecorded(s: Stmt, x: Name, ops: Operators)
    requires (s.If? || s.While? || s.For?) && SelectedBranch(s).None?
    ensures x in UncertainNames(s) <==> BranchAffects(s, x, May, ops) || (s.For? && Mentions(s.target, x, ops))
    ensures StmtEvents(s, ops) == EagerEvents(s, ops) + Events(UncertainNames(s), Uncertain)
  {
    CollectedFromMeans(s.body, x, ops);
    CollectedFromMeans(s.orelse, x, ops);
    if s.For? {
      TargetCollected(s.target, x, ops);
    }
    hide Mentions, CollectedFrom, Affects, EagerEvents;
  }

  lemma AffectsCompound(s: Stmt, x: Name, ops: Operators)
    requires s.If? || s.While? || s.For?
    ensures Affects(s, x, May, ops) <==>
              || HeadPasses(s, x, ops) || BranchAffects(s, x, May, ops)
              || (s.For? && SelectedBranch(s).None? && Mentions(s.target, x, ops))
  {
    if s.For? && TargetPasses(s.target, x, ops) {
      PassingIsMentioned(s.target, x, ops);
    }
    hide BranchAffects, Mentions, TargetPasses, Passes;
  }

  lemma SelectedEvents(s: Stmt, ops: Operators)
    requires SelectedBranch(s).Some?
    ensures StmtEvents(s, ops) == EagerEvents(s, ops) + BodyEvents(SelectedBranch(s).value, ops)
  {
  }

  /** Exactly the names that a statement may touch are recorded for it. */
  lemma {:induction false} TouchedAreRecorded(s: Stmt, x: Name, ops: Operators)
    ensures Records(StmtEvents(s, ops), x, May) <==> Affects(s, x, May, ops)
    decreases s, 1
  {
    if !s.If? && !s.While? && !s.For? {
      SimpleRecorded(s, x, ops);
    } else {
      HeadRecorded(s, x, ops);
      AffectsCompound(s, x, ops);
      if SelectedBranch(s).Some? {
        SelectedRecorded(s, x, ops);
      } else {
        hide Records, Affects, BranchAffects, HeadPasses, StmtEvents;
        UncertainRecorded(s, x, ops);
        EventsRecorded(UncertainNames(s), Uncertain, x);
        RecordsAppend(EagerEvents(s, ops), Events(UncertainNames(s), Uncertain), x, May);
      }
    }
  }

  lemma {:induction false} SelectedRecorded(s: Stmt, x: Name, ops: Operators)
    requires (s.If? || s.While? || s.For?) && SelectedBranch(s).Some?
    ensures Records(StmtEvents(s, ops), x, May) <==> Records(EagerEvents(s, ops), x, May) || BranchAffects(s, x, May, ops)
    decreases s, 0
  {
    var branch := SelectedBranch(s).value;
    BodyRecorded(branch, x, ops);
    SelectedEvents(s, ops);
    hide Records, Affects, StmtEvents;
    RecordsAppend(EagerEvents(s, ops), BodyEvents(branch, ops), x, May);
  }

  lemma {:induction false} BodyRecorded(ss: seq<Stmt>, x: Name, ops: Operators)
    ensures Records(BodyEvents(ss, ops), x, May) <==> exists i :: 0 <= i < |ss| && Affects(ss[i], x, May, ops)
    decreases ss, 2
  {
    if ss != [] {
      var rest := ss[1..];
      TouchedAreRecorded(ss[0], x, ops);
      BodyRecorded(rest, x, ops);
      hide Records, Affects, StmtEvents;
      RecordsAppend(StmtEvents(ss[0], ops), BodyEvents(rest, ops), x, May);
      if i :| 0 <= i < |rest| && Affects(rest[i], x, May, ops) {
        assert Affects(ss[i + 1], x, May, ops);
      }
      if i :| 0 <= i < |ss| && Affects(ss[i], x, May, ops) {
        assert i > 0 ==> Affects(rest[i - 1], x, May, ops);
      }
    }
  }

  /** A statement leaves the entries of all names alone that it cannot touch. */
  lemma UntouchedKeepsEntry(table: Table, s: Stmt, x: Name, ops: Operators, symbols: Symbols)
    requires !Affects(s, x, May, ops)
    ensures AgreeAt(Fold(table, StmtEvents(s, ops), symbols), table, x)
  {
    hide StmtEvents, Affects;
    TouchedAreRecorded(s, x, ops);
    RecordsNamed(StmtEvents(s, ops), x);
    FoldFrame(table, StmtEvents(s, ops), symbols, x);
  }

  lemma {:induction false} EntriesAreRecorded(table: Table, events: seq<Event>, symbols: Symbols, x: Name)
    ensures x in Fold(table, events, symbols) <==> x in table || Records(events, x, May)
    decreases |events|
  {
    if events != [] {
      EntriesAreRecorded(Record(table, events[0], symbols), events[1..], symbols, x);
      RecordsAppend([events[0]], events[1..], x, May);
      RecordsOne(events[0], x, May);
      assert events == [events[0]] + events[1..];
    }
  }

  /** The table has entries for exactly the names that some statement of the body may touch. */
  lemma EntryIff(body: seq<Stmt>, x: Name, ops: Operators, symbols: Symbols)
    ensures x in Fold(map[], BodyEvents(body, ops), symbols) <==> exists i :: 0 <= i < |body| && Affects(body[i], x, May, ops)
  {
    hide Records, Affects;
    BodyRecorded(body, x, ops);
    EntriesAreRecorded(map[], BodyEvents(body, ops), symbols, x);
  }

  // ---------- the last statement that touches a name ----------

  /** The last statement that may touch x, in the branches that constants select. */
  ghost function LastToTouch(ss: seq<Stmt>, x: Name, ops: Operators): Option<Stmt>
    decreases ss
  {
    if ss == [] then None
    else
      var later := LastToTouch(ss[1..], x, ops);
      if later.Some? then later
      else if !Affects(ss[0], x, May, ops) then None
      else
        var inner := if SelectedBranch(ss[0]).Some? then LastToTouch(SelectedBranch(ss[0]).value, x, ops) else None;
        if inner.Some? then inner else Some(ss[0])
  }

  lemma {:induction false} LastToTouchIff(ss: seq<Stmt>, x: Name, ops: Operators)
    ensures LastToTouch(ss, x, ops).Some? <==> exists i :: 0 <= i < |ss| && Affects(ss[i], x, May, ops)
    decreases ss
  {
    if ss != [] {
      var rest := ss[1..];
      LastToTouchIff(rest, x, ops);
      hide Affects;
      if i :| 0 <= i < |rest| && Affects(rest[i], x, May, ops) {
        assert Affects(ss[i + 1], x, May, ops);
      }
      if i :| 0 <= i < |ss| && Affects(ss[i], x, May, ops) {
        assert i > 0 ==> Affects(rest[i - 1], x, May, ops);
      }
    }
  }

  lemma NotTouched(ss: seq<Stmt>, x: Name, ops: Operators)
    requires LastToTouch(ss, x, ops).None?
    ensures !Records(BodyEvents(ss, ops), x, May)
  {
    hide Records, Affects;
    LastToTouchIff(ss, x, ops);
    BodyRecorded(ss, x, ops);
  }

  /** The events of a body: those before the last statement that touches x, its own, and others that leave x alone. */
  ghost predicate SplitsAt(ss: seq<Stmt>, x: Name, ops: Operators, last: Stmt, before: seq<Event>, after: seq<Event>) {
    && BodyEvents(ss, ops) == before + StmtEvents(last, ops) + after && !Records(after, x, May)
    && (ss != [] && Affects(ss[|ss| - 1], x, May, ops) && SelectedBranch(ss[|ss| - 1]).None? ==>
          last == ss[|ss| - 1] && before == BodyEvents(ss[..|ss| - 1], ops) && after == [])
  }

  lemma {:induction false} SplitAtLast(ss: seq<Stmt>, x: Name, ops: Operators) returns (before: seq<Event>, after: seq<Event>)
    requires LastToTouch(ss, x, ops).Some?
    ensures SplitsAt(ss, x, ops, LastToTouch(ss, x, ops).value, before, after)
    decreases ss
  {
    hide SplitsAt, BodyEvents, StmtEvents;
    var rest, branch := ss[1..], SelectedBranch(ss[0]);
    if LastToTouch(rest, x, ops).Some? {
      var early;
      early, after := SplitAtLast(rest, x, ops);
      before := StmtEvents(ss[0], ops) + early;
      SplitsBehind(ss, x, ops, LastToTouch(rest, x, ops).value, early, after);
    } else if branch.Some? && LastToTouch(branch.value, x, ops).Some? {
      var early, late := SplitAtLast(branch.value, x, ops);
      before, after := EagerEvents(ss[0], ops) + early, late + BodyEvents(rest, ops);
      SplitsWithin(ss, x, ops, LastToTouch(branch.value, x, ops).value, early, late);
    } else {
      before, after := [], BodyEvents(rest, ops);
      SplitsHere(ss, x, ops);
    }
  }

  lemma SplitsBehind(ss: seq<Stmt>, x: Name, ops: Operators, last: Stmt, early: seq<Event>, after: seq<Event>)
    requires |ss| > 1 && SplitsAt(ss[1..], x, ops, last, early, after)
    ensures SplitsAt(ss, x, ops, last, StmtEvents(ss[0], ops) + early, after)
  {
    hide Records, Affects, StmtEvents, SelectedBranch;
    var rest, n := ss[1..], |ss| - 1;
    assert rest[n - 1] == ss[n] && ss[..n][1..] == rest[..n - 1];
  }

  lemma SplitsHere(ss: seq<Stmt>, x: Name, ops: Operators)
    requires ss != [] && LastToTouch(ss[1..], x, ops).None?
    ensures SplitsAt(ss, x, ops, ss[0], [], BodyEvents(ss[1..], ops))
  {
    hide Records, Affects, StmtEvents, SelectedBranch, LastToTouch;
    var rest := ss[1..];
    NotTouched(rest, x, ops);
    LastToTouchIff(rest, x, ops);
    assert rest != [] ==> ss[|ss| - 1] == rest[|rest| - 1];
  }

  lemma SplitsWithin(ss: seq<Stmt>, x: Name, ops: Operators, last: Stmt, early: seq<Event>, late: seq<Event>)
    requires ss != [] && LastToTouch(ss[1..], x, ops).None? && SelectedBranch(ss[0]).Some?
    requires SplitsAt(SelectedBranch(ss[0]).value, x, ops, last, early, late)
    ensures SplitsAt(ss, x, ops, last, EagerEvents(ss[0], ops) + early, late + BodyEvents(ss[1..], ops))
  {
    hide Records, Affects, StmtEvents, SelectedBranch, LastToTouch, EagerEvents, BodyEvents;
    var rest := ss[1..];
    NotTouched(rest, x, ops);
    LastToTouchIff(rest, x, ops);
    RecordsAppend(late, BodyEvents(rest, ops), x, May);
    assert rest != [] ==> ss[|ss| - 1] == rest[|rest| - 1];
    EventsWithin(ss, ops, early, StmtEvents(last, ops), late);
  }

  lemma EventsWithin(ss: seq<Stmt>, ops: Operators, early: seq<Event>, own: seq<Event>, late: seq<Event>)
    requires ss != [] && SelectedBranch(ss[0]).Some? && BodyEvents(SelectedBranch(ss[0]).value, ops) == early + own + late
    ensures BodyEvents(ss, ops) == (EagerEvents(ss[0], ops) + early) + own + (late + BodyEvents(ss[1..], ops))
  {
    hide StmtEvents, SelectedBranch, EagerEvents;
    SelectedEvents(ss[0], ops);
    Regroup(EagerEvents(ss[0], ops), early, own, late, BodyEvents(ss[1..], ops));
  }

  lemma Regroup(head: seq<Event>, early: seq<Event>, own: seq<Event>, late: seq<Event>, rest: seq<Event>)
    ensures (head + (early + own + late)) + rest == (head + early) + own + (late + rest)
  {
  }

  /** The statement ends by binding x. */
  ghost predicate Binds(s: Stmt, x: Name) {
    || (s.Assign? && x in TargetsNames(s.targets))
    || (s.AnnAssign? && s.optValue.Some? && x in TargetNames(s.target))
    || (s.ExprStmt? && s.value.Walrus? && s.value.target == x)
    || (s.FunctionDef? && s.name == x)
  }

  /** Its last events do so. */
  ghost function StoredEvents(s: Stmt, x: Name): seq<Event>
    requires Binds(s, x)
  {
    match s
    case Assign(targets, _) => Events(TargetsNames(targets), Assignment)
    case AnnAssign(target, _) => Events(TargetNames(target), Assignment)
    case FunctionDef(name, id, _) => [Event(name, Defined(id))]
    case _ => [Event(x, Assignment)]
  }

  lemma EndsWithBinding(s: Stmt, x: Name, ops: Operators) returns (before: seq<Event>)
    requires Binds(s, x)
    ensures StmtEvents(s, ops) == before + StoredEvents(s, x)
  {
    before := if s.ExprStmt? then ExprEvents(s.value.value, true, ops) else EagerEvents(s, ops);
  }

  lemma {:induction false} AssignedGives(table: Table, names: seq<Name>, symbols: Symbols, x: Name)
    requires x in names && x in symbols.variables
    ensures var folded := Fold(table, Events(names, Assignment), symbols); x in folded && folded[x] == Definite(Variable)
    decreases |names|
  {
    var next := Record(table, Event(names[0], Assignment), symbols);
    var rest := Events(names[1..], Assignment);
    assert Events(names, Assignment) == [Event(names[0], Assignment)] + rest;
    assert ([Event(names[0], Assignment)] + rest)[1..] == rest;
    if x in names[1..] {
      AssignedGives(next, names[1..], symbols, x);
    } else {
      NamedEvents(names[1..], Assignment);
      FoldFrame(next, rest, symbols, x);
    }
  }

  lemma BindingGives(table: Table, s: Stmt, x: Name, symbols: Symbols)
    requires Binds(s, x) && (!s.FunctionDef? ==> x in symbols.variables)
    ensures var folded := Fold(table, StoredEvents(s, x), symbols);
            x in folded && folded[x] == if !s.FunctionDef? then Definite(Variable)
                                        else if x in symbols.ambiguous then Unsure else Definite(Definition(s.id))
  {
    if s.Assign? {
      AssignedGives(table, TargetsNames(s.targets), symbols, x);
    } else if s.AnnAssign? {
      AssignedGives(table, TargetNames(s.target), symbols, x);
    } else {
      var event := StoredEvents(s, x)[0];
      assert StoredEvents(s, x) == [event] && [event][1..] == [];
    }
  }

  lemma BindingIsVariable(s: Stmt, x: Name)
    requires Binds(s, x) && !s.FunctionDef?
    ensures Event(x, Assignment) in StoredEvents(s, x)
  {
    if s.Assign? {
      NamedEvents(TargetsNames(s.targets), Assignment);
      assert x in Named(StoredEvents(s, x));
    } else if s.AnnAssign? {
      NamedEvents(TargetNames(s.target), Assignment);
      assert x in Named(StoredEvents(s, x));
    }
  }


  lemma FoldAfter(before: seq<Event>, own: seq<Event>, after: seq<Event>, symbols: Symbols, x: Name)
    requires !Records(after, x, May)
    ensures AgreeAt(Fold(map[], before + own + after, symbols), Fold(Fold(map[], before, symbols), own, symbols), x)
  {
    FoldAppend(map[], before + own, after, symbols);
    FoldAppend(map[], before, own, symbols);
    RecordsNamed(after, x);
    FoldFrame(Fold(map[], before + own, symbols), after, symbols, x);
  }

  /** A name that is last touched by being assigned, defined or bound by a walrus, be it in a branch that constants
      select, is definite in the table: it is bound by that statement. Only a definition with rivals is unsure. */
  lemma LastBindingIsDefinite(body: seq<Stmt>, x: Name, ops: Operators, ambiguous: set<Name>)
    requires LastToTouch(body, x, ops).Some? && Binds(LastToTouch(body, x, ops).value, x)
    ensures var events, last := BodyEvents(body, ops), LastToTouch(body, x, ops).value;
            var table := Fold(map[], events, Symbols(VariableNames(events), ambiguous));
            x in table && table[x] == if !last.FunctionDef? then Definite(Variable)
                                      else if x in ambiguous then Unsure else Definite(Definition(last.id))
  {
    hide StmtEvents, BodyEvents, Fold, StoredEvents, Binds, LastToTouch, Records;
    var last := LastToTouch(body, x, ops).value;
    var before, after := SplitAtLast(body, x, ops);
    var within := EndsWithBinding(last, x, ops);
    var events := BodyEvents(body, ops);
    var symbols := Symbols(VariableNames(events), ambiguous);
    assert events == before + within + StoredEvents(last, x) + after;
    if !last.FunctionDef? {
      BindingIsVariable(last, x);
    }
    FoldAfter(before + within, StoredEvents(last, x), after, symbols, x);
    BindingGives(Fold(map[], before + within, symbols), last, x, symbols);
  }

  lemma AugmentedTouches(s: Stmt, x: Name, ops: Operators)
    requires s.AugAssign? && x in TargetNames(s.target)
    ensures SelectedBranch(s).None? && Affects(s, x, May, ops)
    ensures StmtEvents(s, ops) == (TargetEvents(s.target, ops) + ExprEvents(s.value, true, ops)) + Events(TargetNames(s.target), Augmented)
  {
    TargetCollected(s.target, x, ops);
  }

  /** A name that is last touched by an augmented assignment is a variable if it was definite just before the store, and
      unsure otherwise. */
  lemma LastAugmentedKeeps(body: seq<Stmt>, x: Name, ops: Operators, ambiguous: set<Name>) returns (before: seq<Event>, after: seq<Event>)
    requires LastToTouch(body, x, ops).Some? && LastToTouch(body, x, ops).value.AugAssign?
    requires x in TargetNames(LastToTouch(body, x, ops).value.target)
    ensures var events, s := BodyEvents(body, ops), LastToTouch(body, x, ops).value;
            var symbols := Symbols(VariableNames(events), ambiguous);
            var early, table := Fold(map[], before, symbols), Fold(map[], events, symbols);
            && events == before + Events(TargetNames(s.target), Augmented) + after && !Records(after, x, May)
            && (body[|body| - 1] == s ==>
                  before == BodyEvents(body[..|body| - 1], ops) + (TargetEvents(s.target, ops) + ExprEvents(s.value, true, ops)))
            && x in table && table[x] == if x in early && early[x].Definite? then Definite(Variable) else Unsure
  {
    var s := LastToTouch(body, x, ops).value;
    var names := TargetNames(s.target);
    AugmentedTouches(s, x, ops);
    hide StmtEvents, BodyEvents, Fold, Events, Affects, LastToTouch, Records, SelectedBranch, TargetEvents, ExprEvents, TargetNames;
    var early;
    early, after := SplitAtLast(body, x, ops);
    before := early + (TargetEvents(s.target, ops) + ExprEvents(s.value, true, ops));
    var events := BodyEvents(body, ops);
    assert events == before + Events(names, Augmented) + after;
    var symbols := Symbols(VariableNames(events), ambiguous);
    NamedEvents(names, Augmented);
    assert x in Named(Events(names, Augmented));
    FoldAfter(before, Events(names, Augmented), after, symbols, x);
    AugmentedGives(Fold(map[], before, symbols), names, symbols, x);
  }
}
