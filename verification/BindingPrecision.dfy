/** Which bindings inside an expression are recorded, and which of them as certain. */
module BindingPrecision {
  import opened Wrappers
  import opened PythonBodies
  import opened BindingEvents
  import opened BindingRuns

  // ---------- what is known before a run ----------

  /** Built from constants only. */
  predicate AllConstant(e: Expr) {
    match e
    case Constant(_) => true
    case Display(_, elts) => forall i :: 0 <= i < |elts| ==> AllConstant(elts[i])
    case _ => false
  }

  /** The value of exactly these expressions is known. */
  lemma {:induction false} ConstantsAreKnown(e: Expr)
    ensures LiteralValue(e).Some? <==> AllConstant(e)
    decreases e, 0
  {
    if e.Display? {
      ListsAreKnown(e.elts);
    }
  }

  lemma {:induction false} ListsAreKnown(es: seq<Expr>)
    ensures LiteralValues(es).Some? <==> forall i :: 0 <= i < |es| ==> AllConstant(es[i])
    ensures LiteralValues(es).Some? ==> |LiteralValues(es).value| == |es|
    decreases es, 1
  {
    if es != [] {
      ConstantsAreKnown(es[0]);
      ListsAreKnown(es[1..]);
      assert forall i :: 0 < i < |es| ==> es[i] == es[1..][i - 1];
      assert forall i :: 0 <= i < |es[1..]| ==> es[1..][i] == es[i + 1];
    }
  }

  /** The truth of constants and of displays is known, and of two constants what comparing them gives. What is false is
      empty, zero or none. */
  lemma TruthIsKnown(e: Expr, op: Comparison, right: Expr, ops: Operators)
    ensures LiteralTruth(e).Some? <==> e.Constant? || e.Display?
    ensures LiteralTruth(e) == Some(false) <==>
              || e == Constant(NoneConst) || e == Constant(BoolConst(false)) || e == Constant(IntConst(0)) || e == Constant(StrConst(""))
              || (e.Display? && e.elts == [])
    ensures (AllConstant(e) <==> LiteralValue(e).Some?) && (AllConstant(right) <==> LiteralValue(right).Some?)
    ensures AllConstant(e) && AllConstant(right) && !op.Is? && !op.IsNot? ==>
              ComparisonTruth(op, e, right, ops) == ops(op, LiteralValue(e).value, LiteralValue(right).value)
  {
    ConstantsAreKnown(e);
    ConstantsAreKnown(right);
    if e.Display? {
      ListsAreKnown(e.elts);
    }
  }

  // ---------- which walruses are recorded, and which as certain ----------

  /** Where a walrus may stand: where, as far as constants tell, every evaluation must pass, where one may pass, or
      anywhere. */
  datatype Reach = Must | May | Anywhere

  /** An evaluation goes on if a truth value is `on`: it must, it may, or whether it does is not asked. */
  predicate GoesOn(truth: Option<bool>, on: bool, reach: Reach) {
    match reach
    case Must => truth == Some(on)
    case May => truth != Some(!on)
    case Anywhere => true
  }

  /** A walrus for x stands within reach. */
  ghost predicate Passes(e: Expr, x: Name, reach: Reach, ops: Operators)
    decreases e, 0
  {
    match e
    case Constant(_) => false
    case Load(_) => false
    case Walrus(y, value) => x == y || Passes(value, x, reach, ops)
    case BoolOp(isAnd, values) =>
      exists i :: 0 <= i < |values| && Passes(values[i], x, reach, ops) &&
                  forall j :: 0 <= j < i ==> GoesOn(LiteralTruth(values[j]), isAnd, reach)
    case Compare(left, operators, rights) =>
      || Passes(left, x, reach, ops)
      || (reach.Anywhere? && exists i :: 0 <= i < |rights| && Passes(rights[i], x, reach, ops))
      || exists i :: 0 <= i < |rights| && i < |operators| && Passes(rights[i], x, reach, ops) &&
                     forall j :: 0 <= j < i ==> GoesOn(LinkTruth(left, operators, rights, j, ops), true, reach)
    case IfExp(test, body, orelse) =>
      || Passes(test, x, reach, ops)
      || (GoesOn(LiteralTruth(test), true, reach) && Passes(body, x, reach, ops))
      || (GoesOn(LiteralTruth(test), false, reach) && Passes(orelse, x, reach, ops))
    case Display(_, elts) => exists i :: 0 <= i < |elts| && Passes(elts[i], x, reach, ops)
    case Other(children) => exists i :: 0 <= i < |children| && Passes(children[i], x, reach, ops)
  }

  /** The evaluation passes the walrus in the i-th operand, and none of those before it stops it. */
  ghost predicate BoolPasses(isAnd: bool, values: seq<Expr>, x: Name, reach: Reach, ops: Operators, i: int) {
    && 0 <= i < |values| && Passes(values[i], x, reach, ops)
    && forall j :: 0 <= j < i ==> GoesOn(LiteralTruth(values[j]), isAnd, reach)
  }

  ghost predicate ChainPasses(left: Expr, operators: seq<Comparison>, rights: seq<Expr>, x: Name, reach: Reach, ops: Operators, i: int) {
    && 0 <= i < |rights| && i < |operators| && Passes(rights[i], x, reach, ops)
    && forall j :: 0 <= j < i ==> GoesOn(LinkTruth(left, operators, rights, j, ops), true, reach)
  }

  /** What is known of the j-th comparison of a chain. */
  function LinkTruth(left: Expr, operators: seq<Comparison>, rights: seq<Expr>, j: nat, ops: Operators): Option<bool>
    requires j < |operators| && j < |rights|
  {
    ComparisonTruth(operators[j], if j == 0 then left else rights[j - 1], rights[j], ops)
  }

  /** Some event is about x and, if it must be passed, a definite assignment. */
  ghost predicate Records(events: seq<Event>, x: Name, reach: Reach) {
    exists e :: e in events && e.name == x && (reach.Must? ==> e.kind == Assignment)
  }

  lemma RecordsAppend(a: seq<Event>, b: seq<Event>, x: Name, reach: Reach)
    ensures Records(a + b, x, reach) <==> Records(a, x, reach) || Records(b, x, reach)
  {
    if e :| e in a && e.name == x && (reach.Must? ==> e.kind == Assignment) {
      assert e in a + b;
    }
    if e :| e in b && e.name == x && (reach.Must? ==> e.kind == Assignment) {
      assert e in a + b;
    }
  }

  lemma RecordsOne(e: Event, x: Name, reach: Reach)
    ensures Records([e], x, reach) <==> e.name == x && (reach.Must? ==> e.kind == Assignment)
  {
    assert e in [e];
  }

  lemma UncertainIsNotSure(events: seq<Event>, x: Name)
    requires AllUncertain(events)
    ensures !Records(events, x, Must)
  {
  }

  /** Exactly the walruses that an evaluation may pass are recorded, and exactly those that every one must pass as definite. */
  lemma {:induction false} WalrusesRecorded(e: Expr, x: Name, reach: Reach, definite: bool, ops: Operators)
    requires !reach.Anywhere? && (reach.Must? ==> definite)
    ensures Records(ExprEvents(e, definite, ops), x, reach) <==> Passes(e, x, reach, ops)
    decreases e, 1
  {
    match e
    case Constant(_) =>
    case Load(_) =>
    case Walrus(y, value) =>
      WalrusesRecorded(value, x, reach, definite, ops);
      RecordsAppend(ExprEvents(value, definite, ops), [Mark(y, definite)], x, reach);
      RecordsOne(Mark(y, definite), x, reach);
    case BoolOp(isAnd, values) =>
      OperandsRecorded(isAnd, values, x, reach, definite, ops);
      BoolPassesSomewhere(e, x, reach, ops);
    case Compare(left, operators, rights) =>
      WalrusesRecorded(left, x, reach, definite, ops);
      ChainRecorded(left, operators, rights, x, reach, definite, ops);
      ChainPassesSomewhere(e, x, reach, ops);
      RecordsAppend(ExprEvents(left, definite, ops), ChainEvents(left, operators, rights, definite, ops), x, reach);
    case IfExp(test, body, orelse) =>
      WalrusesRecorded(test, x, reach, definite, ops);
      BranchesRecorded(e, x, reach, definite, ops);
    case Display(_, elts) => AllRecorded(elts, x, reach, definite, ops);
    case Other(children) => AllRecorded(children, x, reach, definite, ops);
  }

  lemma {:induction false} BranchesRecorded(e: Expr, x: Name, reach: Reach, definite: bool, ops: Operators)
    requires e.IfExp? && !reach.Anywhere? && (reach.Must? ==> definite)
    requires Records(ExprEvents(e.test, definite, ops), x, reach) <==> Passes(e.test, x, reach, ops)
    ensures Records(ExprEvents(e, definite, ops), x, reach) <==> Passes(e, x, reach, ops)
    decreases e, 0
  {
    var truth := LiteralTruth(e.test);
    var test := ExprEvents(e.test, definite, ops);
    if truth.Some? {
      var taken := if truth.value then e.body else e.orelse;
      WalrusesRecorded(taken, x, reach, definite, ops);
      RecordsAppend(test, ExprEvents(taken, definite, ops), x, reach);
    } else {
      var body, orelse := ExprEvents(e.body, false, ops), ExprEvents(e.orelse, false, ops);
      assert ExprEvents(e, definite, ops) == test + (body + orelse);
      RecordsAppend(test, body + orelse, x, reach);
      RecordsAppend(body, orelse, x, reach);
      if reach.Must? {
        ExprEventsMarks(e.body, false, ops);
        ExprEventsMarks(e.orelse, false, ops);
        UncertainIsNotSure(body, x);
        UncertainIsNotSure(orelse, x);
      } else {
        WalrusesRecorded(e.body, x, reach, false, ops);
        WalrusesRecorded(e.orelse, x, reach, false, ops);
      }
    }
  }

  lemma BoolPassesSomewhere(e: Expr, x: Name, reach: Reach, ops: Operators)
    requires e.BoolOp?
    ensures Passes(e, x, reach, ops) <==> exists i :: BoolPasses(e.isAnd, e.values, x, reach, ops, i)
  {
    hide LiteralTruth, GoesOn;
    if i :| BoolPasses(e.isAnd, e.values, x, reach, ops, i) {
      assert 0 <= i < |e.values| && Passes(e.values[i], x, reach, ops);
    }
    if Passes(e, x, reach, ops) {
      var i :| 0 <= i < |e.values| && Passes(e.values[i], x, reach, ops) &&
               forall j :: 0 <= j < i ==> GoesOn(LiteralTruth(e.values[j]), e.isAnd, reach);
      assert BoolPasses(e.isAnd, e.values, x, reach, ops, i);
    }
  }

  lemma ChainPassesSomewhere(e: Expr, x: Name, reach: Reach, ops: Operators)
    requires e.Compare? && !reach.Anywhere?
    ensures Passes(e, x, reach, ops) <==>
            Passes(e.left, x, reach, ops) || exists i :: ChainPasses(e.left, e.ops, e.rights, x, reach, ops, i)
  {
    hide LinkTruth, GoesOn;
    if i :| ChainPasses(e.left, e.ops, e.rights, x, reach, ops, i) {
      assert 0 <= i < |e.rights| && Passes(e.rights[i], x, reach, ops);
    }
    if Passes(e, x, reach, ops) && !Passes(e.left, x, reach, ops) {
      var i :| 0 <= i < |e.rights| && i < |e.ops| && Passes(e.rights[i], x, reach, ops) &&
               forall j :: 0 <= j < i ==> GoesOn(LinkTruth(e.left, e.ops, e.rights, j, ops), true, reach);
      assert ChainPasses(e.left, e.ops, e.rights, x, reach, ops, i);
    }
  }

  lemma {:induction false} AllRecorded(es: seq<Expr>, x: Name, reach: Reach, definite: bool, ops: Operators)
    requires !reach.Anywhere? && (reach.Must? ==> definite)
    ensures Records(AllEvents(es, definite, ops), x, reach) <==> exists i :: 0 <= i < |es| && Passes(es[i], x, reach, ops)
    decreases es, 1
  {
    if es != [] {
      var rest := es[1..];
      WalrusesRecorded(es[0], x, reach, definite, ops);
      AllRecorded(rest, x, reach, definite, ops);
      RecordsAppend(ExprEvents(es[0], definite, ops), AllEvents(rest, definite, ops), x, reach);
      if i :| 0 <= i < |rest| && Passes(rest[i], x, reach, ops) {
        assert Passes(es[i + 1], x, reach, ops);
      }
      if i :| 0 <= i < |es| && Passes(es[i], x, reach, ops) {
        assert i > 0 ==> Passes(rest[i - 1], x, reach, ops);
      }
    }
  }

  lemma BoolPassesRest(isAnd: bool, values: seq<Expr>, x: Name, reach: Reach, ops: Operators, i: nat)
    requires i > 0 && values != []
    ensures BoolPasses(isAnd, values, x, reach, ops, i) <==>
            GoesOn(LiteralTruth(values[0]), isAnd, reach) && BoolPasses(isAnd, values[1..], x, reach, ops, i - 1)
  {
    hide LiteralTruth, Passes, GoesOn;
    var rest := values[1..];
    assert forall j :: 0 < j < |values| ==> values[j] == rest[j - 1];
    if BoolPasses(isAnd, values, x, reach, ops, i) {
      assert forall j :: 0 <= j < i - 1 ==> rest[j] == values[j + 1];
    }
  }

  lemma BoolEventsStep(isAnd: bool, values: seq<Expr>, x: Name, reach: Reach, definite: bool, ops: Operators)
    requires values != [] && !reach.Anywhere? && (reach.Must? ==> definite)
    ensures var truth := LiteralTruth(values[0]);
            Records(BoolEvents(isAnd, values, definite, ops), x, reach) <==>
              || Records(ExprEvents(values[0], definite, ops), x, reach)
              || (GoesOn(truth, isAnd, reach) && Records(BoolEvents(isAnd, values[1..], definite && truth.Some?, ops), x, reach))
  {
    hide ExprEvents, LiteralTruth;
    var truth := LiteralTruth(values[0]);
    var first, rest := ExprEvents(values[0], definite, ops), BoolEvents(isAnd, values[1..], definite && truth.Some?, ops);
    if truth == Some(!isAnd) {
      assert BoolEvents(isAnd, values, definite, ops) == first + [];
    } else {
      assert BoolEvents(isAnd, values, definite, ops) == first + rest;
      assert truth.Some? ==> truth == Some(truth.value) && truth.value == isAnd;
      RecordsAppend(first, rest, x, reach);
      if reach.Must? && truth.None? {
        BoolEventsMarks(isAnd, values[1..], false, ops);
        UncertainIsNotSure(rest, x);
      }
    }
  }

  lemma {:induction false} OperandsRecorded(isAnd: bool, values: seq<Expr>, x: Name, reach: Reach, definite: bool, ops: Operators)
    requires !reach.Anywhere? && (reach.Must? ==> definite)
    ensures Records(BoolEvents(isAnd, values, definite, ops), x, reach) <==> exists i :: BoolPasses(isAnd, values, x, reach, ops, i)
    decreases values, 1
  {
    if values != [] {
      var truth := LiteralTruth(values[0]);
      var goesOn := GoesOn(truth, isAnd, reach);
      WalrusesRecorded(values[0], x, reach, definite, ops);
      if goesOn {
        OperandsRecorded(isAnd, values[1..], x, reach, definite && truth.Some?, ops);
      }
      BoolEventsStep(isAnd, values, x, reach, definite, ops);
      BoolPassesFirst(isAnd, values, x, reach, ops);
      hide BoolPasses, Passes, BoolEvents, ExprEvents, LiteralTruth, GoesOn, Records;
      if i :| goesOn && BoolPasses(isAnd, values[1..], x, reach, ops, i) {
        BoolPassIsIndex(isAnd, values[1..], x, reach, ops, i);
        BoolPassesRest(isAnd, values, x, reach, ops, i + 1);
      }
      if i :| BoolPasses(isAnd, values, x, reach, ops, i) {
        BoolPassIsIndex(isAnd, values, x, reach, ops, i);
        if i > 0 {
          BoolPassesRest(isAnd, values, x, reach, ops, i);
        }
      }
    } else {
      NothingBoolPasses(isAnd, values, x, reach, ops);
    }
  }

  lemma NothingBoolPasses(isAnd: bool, values: seq<Expr>, x: Name, reach: Reach, ops: Operators)
    requires values == []
    ensures forall i :: !BoolPasses(isAnd, values, x, reach, ops, i)
  {
  }

  lemma BoolPassIsIndex(isAnd: bool, values: seq<Expr>, x: Name, reach: Reach, ops: Operators, i: int)
    requires BoolPasses(isAnd, values, x, reach, ops, i)
    ensures i >= 0
  {
  }

  lemma BoolPassesFirst(isAnd: bool, values: seq<Expr>, x: Name, reach: Reach, ops: Operators)
    requires values != []
    ensures Passes(values[0], x, reach, ops) <==> BoolPasses(isAnd, values, x, reach, ops, 0)
  {
    hide Passes;
  }

  lemma LinksOfRest(left: Expr, operators: seq<Comparison>, rights: seq<Expr>, j: nat, ops: Operators)
    requires 0 < j < |operators| && j < |rights|
    ensures LinkTruth(rights[0], operators[1..], rights[1..], j - 1, ops) == LinkTruth(left, operators, rights, j, ops)
  {
    hide ComparisonTruth;
  }

  lemma ChainPassesRest(left: Expr, operators: seq<Comparison>, rights: seq<Expr>, x: Name, reach: Reach, ops: Operators, i: nat)
    requires i > 0 && operators != [] && rights != []
    ensures ChainPasses(left, operators, rights, x, reach, ops, i) <==>
            && GoesOn(LinkTruth(left, operators, rights, 0, ops), true, reach)
            && ChainPasses(rights[0], operators[1..], rights[1..], x, reach, ops, i - 1)
  {
    hide LinkTruth, Passes, GoesOn;
    var next, rest := operators[1..], rights[1..];
    if ChainPasses(left, operators, rights, x, reach, ops, i) {
      assert GoesOn(LinkTruth(left, operators, rights, 0, ops), true, reach) && rest[i - 1] == rights[i];
      forall j | 0 <= j < i - 1
        ensures GoesOn(LinkTruth(rights[0], next, rest, j, ops), true, reach)
      {
        LinksOfRest(left, operators, rights, j + 1, ops);
      }
    }
    if GoesOn(LinkTruth(left, operators, rights, 0, ops), true, reach) && ChainPasses(rights[0], next, rest, x, reach, ops, i - 1) {
      forall j | 0 <= j < i
        ensures GoesOn(LinkTruth(left, operators, rights, j, ops), true, reach)
      {
        if j > 0 {
          LinksOfRest(left, operators, rights, j, ops);
        }
      }
    }
  }

  lemma ChainEventsStep(left: Expr, operators: seq<Comparison>, rights: seq<Expr>, x: Name, reach: Reach, definite: bool, ops: Operators)
    requires operators != [] && rights != [] && !reach.Anywhere? && (reach.Must? ==> definite)
    ensures var truth := LinkTruth(left, operators, rights, 0, ops);
            Records(ChainEvents(left, operators, rights, definite, ops), x, reach) <==>
              || Records(ExprEvents(rights[0], definite, ops), x, reach)
              || (GoesOn(truth, true, reach) &&
                  Records(ChainEvents(rights[0], operators[1..], rights[1..], definite && truth.Some?, ops), x, reach))
  {
    hide ComparisonTruth, ExprEvents;
    var truth := ComparisonTruth(operators[0], left, rights[0], ops);
    assert truth == LinkTruth(left, operators, rights, 0, ops);
    var first := ExprEvents(rights[0], definite, ops);
    var rest := ChainEvents(rights[0], operators[1..], rights[1..], definite && truth.Some?, ops);
    if truth == Some(false) {
      assert ChainEvents(left, operators, rights, definite, ops) == first + [];
    } else {
      assert ChainEvents(left, operators, rights, definite, ops) == first + rest;
      assert truth.Some? ==> truth == Some(truth.value) && truth.value;
      RecordsAppend(first, rest, x, reach);
      if reach.Must? && truth.None? {
        ChainEventsMarks(rights[0], operators[1..], rights[1..], false, ops);
        UncertainIsNotSure(rest, x);
      }
    }
  }

  lemma {:induction false} ChainRecorded(left: Expr, operators: seq<Comparison>, rights: seq<Expr>, x: Name, reach: Reach, definite: bool, ops: Operators)
    requires !reach.Anywhere? && (reach.Must? ==> definite)
    ensures Records(ChainEvents(left, operators, rights, definite, ops), x, reach) <==>
            exists i :: ChainPasses(left, operators, rights, x, reach, ops, i)
    decreases rights, 1
  {
    if operators != [] && rights != [] {
      var next, rest := operators[1..], rights[1..];
      var truth := LinkTruth(left, operators, rights, 0, ops);
      var goesOn := GoesOn(truth, true, reach);
      WalrusesRecorded(rights[0], x, reach, definite, ops);
      if goesOn {
        ChainRecorded(rights[0], next, rest, x, reach, definite && truth.Some?, ops);
      }
      ChainEventsStep(left, operators, rights, x, reach, definite, ops);
      ChainPassesFirst(left, operators, rights, x, reach, ops);
      hide ChainPasses, Passes, ChainEvents, ExprEvents, LinkTruth, GoesOn, Records;
      if i :| goesOn && ChainPasses(rights[0], next, rest, x, reach, ops, i) {
        ChainPassIsIndex(rights[0], next, rest, x, reach, ops, i);
        ChainPassesRest(left, operators, rights, x, reach, ops, i + 1);
      }
      if i :| ChainPasses(left, operators, rights, x, reach, ops, i) {
        ChainPassIsIndex(left, operators, rights, x, reach, ops, i);
        if i > 0 {
          ChainPassesRest(left, operators, rights, x, reach, ops, i);
        }
      }
    } else {
      NothingChainPasses(left, operators, rights, x, reach, definite, ops);
    }
  }

  lemma ChainPassIsIndex(left: Expr, operators: seq<Comparison>, rights: seq<Expr>, x: Name, reach: Reach, ops: Operators, i: int)
    requires ChainPasses(left, operators, rights, x, reach, ops, i)
    ensures i >= 0
  {
  }

  lemma NothingChainPasses(left: Expr, operators: seq<Comparison>, rights: seq<Expr>, x: Name, reach: Reach, definite: bool, ops: Operators)
    requires operators == [] || rights == []
    ensures forall i :: !ChainPasses(left, operators, rights, x, reach, ops, i)
    ensures ChainEvents(left, operators, rights, definite, ops) == []
  {
  }

  lemma ChainPassesFirst(left: Expr, operators: seq<Comparison>, rights: seq<Expr>, x: Name, reach: Reach, ops: Operators)
    requires operators != [] && rights != []
    ensures Passes(rights[0], x, reach, ops) <==> ChainPasses(left, operators, rights, x, reach, ops, 0)
  {
    hide Passes;
  }

  /** Exactly the walruses that every evaluation must pass are recorded as definite assignments. */
  lemma AlwaysRunsIsDefinite(e: Expr, x: Name, ops: Operators)
    ensures Event(x, Assignment) in ExprEvents(e, true, ops) <==> Passes(e, x, Must, ops)
  {
    WalrusesRecorded(e, x, Must, true, ops);
    assert Event(x, Assignment) in ExprEvents(e, true, ops) <==> Records(ExprEvents(e, true, ops), x, Must) by {
      hide ExprEvents;
    }
  }

  /** The names collected from an expression are those of its walruses, wherever they stand. */
  lemma {:induction false} WalrusesCollected(e: Expr, x: Name, ops: Operators)
    ensures x in ExprNames(e) <==> Passes(e, x, Anywhere, ops)
    decreases e, 0
  {
    match e
    case Constant(_) =>
    case Load(_) =>
    case Walrus(_, value) => WalrusesCollected(value, x, ops);
    case BoolOp(_, values) => AllCollected(values, x, ops);
    case Compare(left, operators, rights) =>
      WalrusesCollected(left, x, ops);
      AllCollected(rights, x, ops);
    case IfExp(test, body, orelse) =>
      WalrusesCollected(test, x, ops);
      WalrusesCollected(body, x, ops);
      WalrusesCollected(orelse, x, ops);
    case Display(_, elts) => AllCollected(elts, x, ops);
    case Other(children) => AllCollected(children, x, ops);
  }

  lemma {:induction false} AllCollected(es: seq<Expr>, x: Name, ops: Operators)
    ensures x in AllNames(es) <==> exists i :: 0 <= i < |es| && Passes(es[i], x, Anywhere, ops)
    decreases es, 1
  {
    if es != [] {
      var rest := es[1..];
      WalrusesCollected(es[0], x, ops);
      AllCollected(rest, x, ops);
      if i :| 0 <= i < |rest| && Passes(rest[i], x, Anywhere, ops) {
        assert Passes(es[i + 1], x, Anywhere, ops);
      }
      if i :| 0 <= i < |es| && Passes(es[i], x, Anywhere, ops) {
        assert i > 0 ==> Passes(rest[i - 1], x, Anywhere, ops);
      }
    }
  }
}
