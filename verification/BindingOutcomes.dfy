/** How an expression can end without ever assigning a given name: computed from its text, and exact for
    the runs it has. */
module BindingOutcomes {
  import opened Wrappers
  import opened PythonBodies
  import opened BindingEvents
  import opened BindingRuns

  /** A constant, or any value of this truth that need not be a constant. */
  datatype Possible = Known(v: Value) | Loose(truth: bool)

  predicate Holds(o: Possible) {
    match o
    case Known(v) => Truth(v)
    case Loose(truth) => truth
  }

  const ANY: set<Possible> := {Loose(true), Loose(false)}

  /** The value is one the outcome stands for. */
  predicate Covers(o: Possible, v: Value) {
    match o
    case Known(u) => v == u && IsLiteral(v)
    case Loose(truth) => Truth(v) == truth
  }

  // ---------- outcomes ----------

  predicate MayBe(outcomes: set<Possible>, truth: bool) {
    exists o :: o in outcomes && Holds(o) == truth
  }

  /** The ways e can end in some run that does not assign x. */
  function Outcomes(e: Expr, x: Name, ops: Operators): set<Possible>
    decreases e, 0
  {
    match e
    case Constant(c) => {Known(Atom(c))}
    case Load(_) => ANY
    case Walrus(y, value) => if x == y then {} else Outcomes(value, x, ops)
    case BoolOp(isAnd, values) => BoolOutcomes(isAnd, values, x, ops)
    case Compare(left, operators, rights) =>
      set l, o | l in Outcomes(left, x, ops) && o in ChainOutcomes(l, operators, rights, x, ops) :: o
    case IfExp(test, body, orelse) =>
      var tests := Outcomes(test, x, ops);
      (if MayBe(tests, true) then Outcomes(body, x, ops) else {}) +
      (if MayBe(tests, false) then Outcomes(orelse, x, ops) else {})
    case Display(isTuple, elts) =>
      set vs | vs in AllOutcomes(elts, x, ops) ::
        if vs.Some? then Known(Sequence(isTuple, vs.value)) else Loose(elts != [])
    case Other(children) => if AllOutcomes(children, x, ops) == {} then {} else ANY
  }

  /** The lists of constants that several expressions can yield, and None if they can yield something else. */
  function AllOutcomes(es: seq<Expr>, x: Name, ops: Operators): set<Option<seq<Value>>>
    decreases es, 1
  {
    if es == [] then {Some([])}
    else
      set o, vs | o in Outcomes(es[0], x, ops) && vs in AllOutcomes(es[1..], x, ops) :: Joined(o, vs)
  }

  function Joined(o: Possible, vs: Option<seq<Value>>): Option<seq<Value>> {
    if o.Known? && vs.Some? then Some([o.v] + vs.value) else None
  }

  function BoolOutcomes(isAnd: bool, values: seq<Expr>, x: Name, ops: Operators): set<Possible>
    decreases values, 1
  {
    if values == [] then {}
    else
      var first := Outcomes(values[0], x, ops);
      if |values| == 1 then first
      else
        (set o | o in first && Holds(o) != isAnd) +
        (if MayBe(first, isAnd) then BoolOutcomes(isAnd, values[1..], x, ops) else {})
  }

  /** One comparison; of anything but two constants it may go either way. */
  function StepOutcomes(op: Comparison, left: Possible, right: Possible, ops: Operators): set<Possible> {
    if op.Is? || op.IsNot? || left.Loose? || right.Loose? then ANY
    else
      var r := ops(op, left.v, right.v);
      if r.None? then {} else {Known(Atom(BoolConst(r.value)))}
  }

  /** A chain from one outcome of its left side: the same outcome on the right goes into the next comparison. */
  function ChainOutcomes(left: Possible, operators: seq<Comparison>, rights: seq<Expr>, x: Name, ops: Operators): set<Possible>
    decreases rights, 1
  {
    if operators == [] || rights == [] then {}
    else
      var last := |operators| == 1 || |rights| == 1;
      (set r, o | r in Outcomes(rights[0], x, ops) && o in StepOutcomes(operators[0], left, r, ops) && (last || !Holds(o)) :: o) +
      (set r, p | !last && r in Outcomes(rights[0], x, ops) && MayBe(StepOutcomes(operators[0], left, r, ops), true) &&
                  p in ChainOutcomes(r, operators[1..], rights[1..], x, ops) :: p)
  }

  /** The target can be stored to without assigning x. */
  predicate TargetSkips(t: Target, x: Name, ops: Operators)
    decreases t, 0
  {
    match t
    case NameTarget(y) => x != y
    case ItemTarget(base, index) => Outcomes(base, x, ops) != {} && Outcomes(index, x, ops) != {}
    case TupleTarget(elts) => TargetsSkip(elts, x, ops)
  }

  predicate TargetsSkip(ts: seq<Target>, x: Name, ops: Operators)
    decreases ts, 1
  {
    ts != [] ==> TargetSkips(ts[0], x, ops) && TargetsSkip(ts[1..], x, ops)
  }

  // ---------- every run has one of the outcomes ----------

  ghost predicate Unassigned(env: Env, x: Name) {
    !BoundVariable(env, x)
  }

  ghost predicate CoveredBy(outcomes: set<Possible>, v: Value) {
    exists o :: o in outcomes && Covers(o, v)
  }

  lemma StillUnassigned(e: Expr, st: State, w: World, x: Name)
    requires Eval(e, st, w).Some? && x !in w.rebinds && Unassigned(Eval(e, st, w).value.st.env, x)
    ensures Unassigned(st.env, x)
  {
    ExprEffect(e, true, st, w);
    if BoundVariable(st.env, x) {
      KeepsBound(st.env, Eval(e, st, w).value.st.env, Members(ExprNames(e)), x, w.rebinds);
    }
  }

  lemma AskedUnassigned(st: State, w: World, x: Name)
    requires x !in w.rebinds
    ensures Unassigned(Ask(st, w).st.env, x) <==> Unassigned(st.env, x)
  {
    AskTouches(st, w);
    assert Same(st.env, Ask(st, w).st.env, x);
  }

  lemma AnyCovers(v: Value)
    ensures CoveredBy(ANY, v)
  {
    assert Loose(Truth(v)) in ANY && Covers(Loose(Truth(v)), v);
  }

  lemma {:induction false} RunCovered(e: Expr, st: State, w: World, x: Name)
    requires Eval(e, st, w).Some? && x !in w.rebinds && Unassigned(Eval(e, st, w).value.st.env, x)
    ensures CoveredBy(Outcomes(e, x, w.ops), Eval(e, st, w).value.v)
    decreases e, 0
  {
    match e
    case Constant(c) => assert Covers(Known(Atom(c)), Atom(c));
    case Load(_) => AnyCovers(Eval(e, st, w).value.v);
    case Walrus(y, value) => RunCovered(value, st, w, x);
    case BoolOp(isAnd, values) => BoolCovered(isAnd, values, st, w, x);
    case Compare(left, operators, rights) =>
      var l := Eval(left, st, w).value;
      ChainUnassigned(l.v, operators, rights, l.st, w, x);
      RunCovered(left, st, w, x);
      var o :| o in Outcomes(left, x, w.ops) && Covers(o, l.v);
      ChainCovered(o, l.v, operators, rights, l.st, w, x);
      var p :| p in ChainOutcomes(o, operators, rights, x, w.ops) && Covers(p, Eval(e, st, w).value.v);
      assert p in Outcomes(e, x, w.ops);
    case IfExp(test, body, orelse) =>
      var t := Eval(test, st, w).value;
      var taken := if Truth(t.v) then body else orelse;
      StillUnassigned(taken, t.st, w, x);
      RunCovered(test, st, w, x);
      RunCovered(taken, t.st, w, x);
      var o :| o in Outcomes(test, x, w.ops) && Covers(o, t.v);
      assert Holds(o) == Truth(t.v);
    case Display(isTuple, elts) => DisplayCovered(isTuple, elts, st, w, x);
    case Other(children) =>
      AskedUnassigned(EvalAll(children, st, w).value.1, w, x);
      AllCovered(children, st, w, x);
      AnyCovers(Eval(e, st, w).value.v);
  }

  lemma {:induction false} DisplayCovered(isTuple: bool, elts: seq<Expr>, st: State, w: World, x: Name)
    requires EvalAll(elts, st, w).Some? && x !in w.rebinds && Unassigned(EvalAll(elts, st, w).value.1.env, x)
    ensures CoveredBy(Outcomes(Display(isTuple, elts), x, w.ops), Sequence(isTuple, EvalAll(elts, st, w).value.0))
    decreases elts, 2
  {
    AllCovered(elts, st, w, x);
    EvalAllLength(elts, st, w);
    var values := EvalAll(elts, st, w).value.0;
    var vs :| vs in AllOutcomes(elts, x, w.ops) && CoversAll(vs, values);
    var o := if vs.Some? then Known(Sequence(isTuple, vs.value)) else Loose(elts != []);
    assert o in Outcomes(Display(isTuple, elts), x, w.ops);
    assert Covers(o, Sequence(isTuple, values));
  }

  ghost predicate CoversAll(vs: Option<seq<Value>>, values: seq<Value>) {
    vs.Some? ==> vs.value == values && forall i :: 0 <= i < |values| ==> IsLiteral(values[i])
  }

  lemma {:induction false} AllCovered(es: seq<Expr>, st: State, w: World, x: Name)
    requires EvalAll(es, st, w).Some? && x !in w.rebinds && Unassigned(EvalAll(es, st, w).value.1.env, x)
    ensures exists vs :: vs in AllOutcomes(es, x, w.ops) && CoversAll(vs, EvalAll(es, st, w).value.0)
    decreases es, 1
  {
    if es == [] {
      assert CoversAll(Some([]), []);
    } else {
      var first := Eval(es[0], st, w).value;
      AllUnassigned(es[1..], first.st, w, x);
      RunCovered(es[0], st, w, x);
      AllCovered(es[1..], first.st, w, x);
      var o :| o in Outcomes(es[0], x, w.ops) && Covers(o, first.v);
      var vs :| vs in AllOutcomes(es[1..], x, w.ops) && CoversAll(vs, EvalAll(es[1..], first.st, w).value.0);
      assert Joined(o, vs) in AllOutcomes(es, x, w.ops);
      assert CoversAll(Joined(o, vs), EvalAll(es, st, w).value.0);
    }
  }

  lemma {:induction false} AllUnassigned(es: seq<Expr>, st: State, w: World, x: Name)
    requires EvalAll(es, st, w).Some? && x !in w.rebinds && Unassigned(EvalAll(es, st, w).value.1.env, x)
    ensures Unassigned(st.env, x)
  {
    if es != [] {
      var first := Eval(es[0], st, w).value;
      AllUnassigned(es[1..], first.st, w, x);
      StillUnassigned(es[0], st, w, x);
    }
  }

  lemma {:induction false} BoolUnassigned(isAnd: bool, values: seq<Expr>, st: State, w: World, x: Name)
    requires EvalBool(isAnd, values, st, w).Some? && x !in w.rebinds && Unassigned(EvalBool(isAnd, values, st, w).value.st.env, x)
    ensures Unassigned(st.env, x)
  {
    var first := Eval(values[0], st, w).value;
    if |values| > 1 && Truth(first.v) == isAnd {
      BoolUnassigned(isAnd, values[1..], first.st, w, x);
    }
    StillUnassigned(values[0], st, w, x);
  }

  lemma {:induction false} BoolCovered(isAnd: bool, values: seq<Expr>, st: State, w: World, x: Name)
    requires EvalBool(isAnd, values, st, w).Some? && x !in w.rebinds && Unassigned(EvalBool(isAnd, values, st, w).value.st.env, x)
    ensures CoveredBy(BoolOutcomes(isAnd, values, x, w.ops), EvalBool(isAnd, values, st, w).value.v)
    decreases values, 1
  {
    var first := Eval(values[0], st, w).value;
    var more := |values| > 1 && Truth(first.v) == isAnd;
    if more {
      BoolUnassigned(isAnd, values[1..], first.st, w, x);
    }
    RunCovered(values[0], st, w, x);
    var o :| o in Outcomes(values[0], x, w.ops) && Covers(o, first.v);
    assert Holds(o) == Truth(first.v);
    if more {
      BoolCovered(isAnd, values[1..], first.st, w, x);
    }
  }

  lemma {:induction false} ChainUnassigned(v: Value, operators: seq<Comparison>, rights: seq<Expr>, st: State, w: World, x: Name)
    requires EvalChain(v, operators, rights, st, w).Some? && x !in w.rebinds
    requires Unassigned(EvalChain(v, operators, rights, st, w).value.st.env, x)
    ensures Unassigned(st.env, x) && Unassigned(Eval(rights[0], st, w).value.st.env, x)
    decreases rights
  {
    var right := Eval(rights[0], st, w).value;
    var r := CompareValues(operators[0], v, right.v, right.st, w).value;
    if |operators| > 1 && |rights| > 1 && Truth(r.v) {
      ChainUnassigned(right.v, operators[1..], rights[1..], r.st, w, x);
    }
    AskedUnassigned(right.st, w, x);
    StillUnassigned(rights[0], st, w, x);
  }

  lemma StepCovered(op: Comparison, l: Possible, lv: Value, r: Possible, rv: Value, st: State, w: World)
    requires Covers(l, lv) && Covers(r, rv) && CompareValues(op, lv, rv, st, w).Some?
    ensures CoveredBy(StepOutcomes(op, l, r, w.ops), CompareValues(op, lv, rv, st, w).value.v)
  {
    var v := CompareValues(op, lv, rv, st, w).value.v;
    if op.Is? || op.IsNot? || l.Loose? || r.Loose? {
      AnyCovers(v);
    } else {
      assert Covers(Known(v), v);
    }
  }

  lemma {:induction false} ChainCovered(l: Possible, lv: Value, operators: seq<Comparison>, rights: seq<Expr>,
                                        st: State, w: World, x: Name)
    requires EvalChain(lv, operators, rights, st, w).Some? && Covers(l, lv) && x !in w.rebinds
    requires Unassigned(EvalChain(lv, operators, rights, st, w).value.st.env, x)
    ensures CoveredBy(ChainOutcomes(l, operators, rights, x, w.ops), EvalChain(lv, operators, rights, st, w).value.v)
    decreases rights, 1
  {
    var right := Eval(rights[0], st, w).value;
    var r := CompareValues(operators[0], lv, right.v, right.st, w).value;
    ChainUnassigned(lv, operators, rights, st, w, x);
    RunCovered(rights[0], st, w, x);
    var ro :| ro in Outcomes(rights[0], x, w.ops) && Covers(ro, right.v);
    StepCovered(operators[0], l, lv, ro, right.v, right.st, w);
    var o :| o in StepOutcomes(operators[0], l, ro, w.ops) && Covers(o, r.v);
    assert Holds(o) == Truth(r.v);
    if |operators| > 1 && |rights| > 1 && Truth(r.v) {
      ChainCovered(ro, right.v, operators[1..], rights[1..], r.st, w, x);
      var p :| p in ChainOutcomes(ro, operators[1..], rights[1..], x, w.ops) &&
               Covers(p, EvalChain(right.v, operators[1..], rights[1..], r.st, w).value.v);
      assert p in ChainOutcomes(l, operators, rights, x, w.ops);
    } else {
      assert o in ChainOutcomes(l, operators, rights, x, w.ops);
    }
  }

  // ---------- targets ----------

  lemma {:induction false} TargetCovered(t: Target, st: State, w: World, x: Name)
    requires Store(t, st, w).Some? && x !in w.rebinds && Unassigned(Store(t, st, w).value.env, x)
    ensures TargetSkips(t, x, w.ops) && Unassigned(st.env, x)
    decreases t, 0
  {
    match t
    case NameTarget(_) =>
    case ItemTarget(base, index) =>
      var b := Eval(base, st, w).value;
      StillUnassigned(index, b.st, w, x);
      StillUnassigned(base, st, w, x);
      RunCovered(index, b.st, w, x);
      RunCovered(base, st, w, x);
    case TupleTarget(elts) => TargetsCovered(elts, st, w, x);
  }

  lemma {:induction false} TargetsCovered(ts: seq<Target>, st: State, w: World, x: Name)
    requires StoreAll(ts, st, w).Some? && x !in w.rebinds && Unassigned(StoreAll(ts, st, w).value.env, x)
    ensures TargetsSkip(ts, x, w.ops) && Unassigned(st.env, x)
    decreases ts, 1
  {
    if ts != [] {
      TargetsCovered(ts[1..], Store(ts[0], st, w).value, w, x);
      TargetCovered(ts[0], st, w, x);
    }
  }

  // ---------- every outcome has a run ----------

  /** From this moment on the answers follow the script. */
  ghost predicate Follows(answers: nat -> Value, clock: nat, script: seq<Value>) {
    forall i :: 0 <= i < |script| ==> answers(clock + i) == script[i]
  }

  /** What the script leads to: nothing but the clock and names other than x has changed. */
  ghost predicate Leaves(st: State, after: State, x: Name, script: seq<Value>) {
    after.clock == st.clock + |script| && Same(st.env, after.env, x)
  }

  /** The evaluation ends with this value and leaves x alone. */
  ghost predicate Ends(r: Option<Evaluated>, v: Value, st: State, x: Name, script: seq<Value>) {
    r.Some? && r.value.v == v && Leaves(st, r.value.st, x, script)
  }

  ghost predicate Stores(r: Option<State>, st: State, x: Name, script: seq<Value>) {
    r.Some? && Leaves(st, r.value, x, script)
  }

  /** Given these answers, and no function that rebinds anything, e has the value v and x is left alone. */
  ghost predicate Yields(e: Expr, x: Name, script: seq<Value>, v: Value, ops: Operators) {
    forall answers: nat -> Value, st: State | Follows(answers, st.clock, script) ::
      Ends(Eval(e, st, Quiet(answers, ops)), v, st, x, script)
  }

  ghost predicate YieldsAll(es: seq<Expr>, x: Name, script: seq<Value>, vs: seq<Value>, ops: Operators) {
    forall answers: nat -> Value, st: State | Follows(answers, st.clock, script) ::
      AllEnd(EvalAll(es, st, Quiet(answers, ops)), vs, st, x, script)
  }

  ghost predicate AllEnd(r: Option<(seq<Value>, State)>, vs: seq<Value>, st: State, x: Name, script: seq<Value>) {
    r.Some? && r.value.0 == vs && Leaves(st, r.value.1, x, script)
  }

  ghost predicate YieldsBool(isAnd: bool, values: seq<Expr>, x: Name, script: seq<Value>, v: Value, ops: Operators) {
    forall answers: nat -> Value, st: State | Follows(answers, st.clock, script) ::
      Ends(EvalBool(isAnd, values, st, Quiet(answers, ops)), v, st, x, script)
  }

  ghost predicate YieldsStep(op: Comparison, l: Value, r: Value, x: Name, script: seq<Value>, v: Value, ops: Operators) {
    forall answers: nat -> Value, st: State | Follows(answers, st.clock, script) ::
      Ends(CompareValues(op, l, r, st, Quiet(answers, ops)), v, st, x, script)
  }

  ghost predicate YieldsChain(l: Value, operators: seq<Comparison>, rights: seq<Expr>, x: Name, script: seq<Value>,
                              v: Value, ops: Operators) {
    forall answers: nat -> Value, st: State | Follows(answers, st.clock, script) ::
      Ends(EvalChain(l, operators, rights, st, Quiet(answers, ops)), v, st, x, script)
  }

  ghost predicate Skips(t: Target, x: Name, script: seq<Value>, ops: Operators) {
    forall answers: nat -> Value, st: State | Follows(answers, st.clock, script) ::
      Stores(Store(t, st, Quiet(answers, ops)), st, x, script)
  }

  ghost predicate SkipsAll(ts: seq<Target>, x: Name, script: seq<Value>, ops: Operators) {
    forall answers: nat -> Value, st: State | Follows(answers, st.clock, script) ::
      Stores(StoreAll(ts, st, Quiet(answers, ops)), st, x, script)
  }

  /** The value realises the outcome. */
  ghost predicate Fits(o: Possible, v: Value) {
    match o
    case Known(u) => v == u && IsLiteral(v)
    case Loose(truth) => Truth(v) == truth && !IsLiteral(v)
  }

  ghost predicate FitsAll(vs: Option<seq<Value>>, values: seq<Value>) {
    if vs.Some? then vs.value == values && forall i :: 0 <= i < |values| ==> IsLiteral(values[i])
    else exists i :: 0 <= i < |values| && !IsLiteral(values[i])
  }

  lemma FollowsBoth(answers: nat -> Value, clock: nat, first: seq<Value>, second: seq<Value>)
    requires Follows(answers, clock, first + second)
    ensures Follows(answers, clock, first) && Follows(answers, clock + |first|, second)
  {
    forall i | 0 <= i < |first|
      ensures answers(clock + i) == first[i]
    {
      assert (first + second)[i] == first[i];
    }
    forall i | 0 <= i < |second|
      ensures answers(clock + |first| + i) == second[i]
    {
      assert (first + second)[|first| + i] == second[i];
    }
  }

  /** In a quiet world a question only moves the clock. */
  lemma AskQuiet(answers: nat -> Value, ops: Operators, st: State)
    ensures Ask(st, Quiet(answers, ops)) == Evaluated(answers(st.clock), State(st.env, st.clock + 1))
  {
    assert Disturb(st.env, NoEffect(), {}) == st.env;
  }

  lemma LeavesAt(st: State, after: State, x: Name, script: seq<Value>)
    requires Leaves(st, after, x, script)
    ensures after.clock == st.clock + |script|
  {
  }

  lemma LeavesBoth(st: State, mid: State, after: State, x: Name, first: seq<Value>, second: seq<Value>)
    requires Leaves(st, mid, x, first) && Leaves(mid, after, x, second)
    ensures Leaves(st, after, x, first + second)
  {
  }

  lemma AskEnds(answers: nat -> Value, ops: Operators, st: State, x: Name, v: Value)
    requires Follows(answers, st.clock, [v])
    ensures Ends(Some(Ask(st, Quiet(answers, ops))), v, st, x, [v])
  {
    AskQuiet(answers, ops, st);
    assert answers(st.clock + 0) == [v][0];
  }

  lemma LoadYields(e: Expr, x: Name, v: Value, ops: Operators)
    requires e.Load?
    ensures Yields(e, x, [v], v, ops)
  {
    forall answers: nat -> Value, st: State | Follows(answers, st.clock, [v])
      ensures Ends(Eval(e, st, Quiet(answers, ops)), v, st, x, [v])
    {
      AskEnds(answers, ops, st, x, v);
    }
  }

  lemma WalrusYields(e: Expr, x: Name, script: seq<Value>, v: Value, ops: Operators)
    requires e.Walrus? && e.target != x && Yields(e.value, x, script, v, ops)
    ensures Yields(e, x, script, v, ops)
  {
    forall answers: nat -> Value, st: State | Follows(answers, st.clock, script)
      ensures Ends(Eval(e, st, Quiet(answers, ops)), v, st, x, script)
    {
      assert Ends(Eval(e.value, st, Quiet(answers, ops)), v, st, x, script);
    }
  }

  lemma IfYields(e: Expr, x: Name, first: seq<Value>, t: Value, second: seq<Value>, v: Value, ops: Operators)
    requires e.IfExp? && Yields(e.test, x, first, t, ops)
    requires Yields(if Truth(t) then e.body else e.orelse, x, second, v, ops)
    ensures Yields(e, x, first + second, v, ops)
  {
    hide Follows, Leaves, Quiet, Truth;
    forall answers: nat -> Value, st: State | Follows(answers, st.clock, first + second)
      ensures Ends(Eval(e, st, Quiet(answers, ops)), v, st, x, first + second)
    {
      FollowsBoth(answers, st.clock, first, second);
      var r := Eval(e.test, st, Quiet(answers, ops));
      assert Ends(r, t, st, x, first);
      LeavesAt(st, r.value.st, x, first);
      assert Ends(Eval(if Truth(t) then e.body else e.orelse, r.value.st, Quiet(answers, ops)), v, r.value.st, x, second);
      LeavesBoth(st, r.value.st, Eval(e, st, Quiet(answers, ops)).value.st, x, first, second);
    }
  }

  lemma AllYields(es: seq<Expr>, x: Name, first: seq<Value>, v: Value, second: seq<Value>, vs: seq<Value>, ops: Operators)
    requires es != [] && Yields(es[0], x, first, v, ops) && YieldsAll(es[1..], x, second, vs, ops)
    ensures YieldsAll(es, x, first + second, [v] + vs, ops)
  {
    hide Follows, Leaves, Quiet, Truth;
    forall answers: nat -> Value, st: State | Follows(answers, st.clock, first + second)
      ensures AllEnd(EvalAll(es, st, Quiet(answers, ops)), [v] + vs, st, x, first + second)
    {
      FollowsBoth(answers, st.clock, first, second);
      var r := Eval(es[0], st, Quiet(answers, ops));
      assert Ends(r, v, st, x, first);
      LeavesAt(st, r.value.st, x, first);
      assert AllEnd(EvalAll(es[1..], r.value.st, Quiet(answers, ops)), vs, r.value.st, x, second);
      LeavesBoth(st, r.value.st, EvalAll(es, st, Quiet(answers, ops)).value.1, x, first, second);
    }
  }

  lemma DisplayYields(e: Expr, x: Name, script: seq<Value>, vs: seq<Value>, ops: Operators)
    requires e.Display? && YieldsAll(e.elts, x, script, vs, ops)
    ensures Yields(e, x, script, Sequence(e.isTuple, vs), ops)
  {
    forall answers: nat -> Value, st: State | Follows(answers, st.clock, script)
      ensures Ends(Eval(e, st, Quiet(answers, ops)), Sequence(e.isTuple, vs), st, x, script)
    {
      assert AllEnd(EvalAll(e.elts, st, Quiet(answers, ops)), vs, st, x, script);
    }
  }

  lemma OtherYields(e: Expr, x: Name, script: seq<Value>, vs: seq<Value>, v: Value, ops: Operators)
    requires e.Other? && YieldsAll(e.children, x, script, vs, ops)
    ensures Yields(e, x, script + [v], v, ops)
  {
    hide Follows, Leaves, Quiet, Ask;
    forall answers: nat -> Value, st: State | Follows(answers, st.clock, script + [v])
      ensures Ends(Eval(e, st, Quiet(answers, ops)), v, st, x, script + [v])
    {
      FollowsBoth(answers, st.clock, script, [v]);
      var r := EvalAll(e.children, st, Quiet(answers, ops));
      assert AllEnd(r, vs, st, x, script);
      LeavesAt(st, r.value.1, x, script);
      AskEnds(answers, ops, r.value.1, x, v);
      LeavesBoth(st, r.value.1, Ask(r.value.1, Quiet(answers, ops)).st, x, script, [v]);
    }
  }

  lemma BoolStops(isAnd: bool, values: seq<Expr>, x: Name, script: seq<Value>, v: Value, ops: Operators)
    requires values != [] && Yields(values[0], x, script, v, ops) && (|values| == 1 || Truth(v) != isAnd)
    ensures YieldsBool(isAnd, values, x, script, v, ops)
  {
    forall answers: nat -> Value, st: State | Follows(answers, st.clock, script)
      ensures Ends(EvalBool(isAnd, values, st, Quiet(answers, ops)), v, st, x, script)
    {
      assert Ends(Eval(values[0], st, Quiet(answers, ops)), v, st, x, script);
    }
  }

  lemma BoolContinues(isAnd: bool, values: seq<Expr>, x: Name, first: seq<Value>, t: Value, second: seq<Value>, v: Value,
                      ops: Operators)
    requires |values| > 1 && Yields(values[0], x, first, t, ops) && Truth(t) == isAnd
    requires YieldsBool(isAnd, values[1..], x, second, v, ops)
    ensures YieldsBool(isAnd, values, x, first + second, v, ops)
  {
    hide Follows, Leaves, Quiet, Truth;
    forall answers: nat -> Value, st: State | Follows(answers, st.clock, first + second)
      ensures Ends(EvalBool(isAnd, values, st, Quiet(answers, ops)), v, st, x, first + second)
    {
      FollowsBoth(answers, st.clock, first, second);
      var r := Eval(values[0], st, Quiet(answers, ops));
      assert Ends(r, t, st, x, first);
      LeavesAt(st, r.value.st, x, first);
      assert Ends(EvalBool(isAnd, values[1..], r.value.st, Quiet(answers, ops)), v, r.value.st, x, second);
      LeavesBoth(st, r.value.st, EvalBool(isAnd, values, st, Quiet(answers, ops)).value.st, x, first, second);
    }
  }

  lemma BoolYields(e: Expr, x: Name, script: seq<Value>, v: Value, ops: Operators)
    requires e.BoolOp? && YieldsBool(e.isAnd, e.values, x, script, v, ops)
    ensures Yields(e, x, script, v, ops)
  {
    forall answers: nat -> Value, st: State | Follows(answers, st.clock, script)
      ensures Ends(Eval(e, st, Quiet(answers, ops)), v, st, x, script)
    {
      assert Ends(EvalBool(e.isAnd, e.values, st, Quiet(answers, ops)), v, st, x, script);
    }
  }

  lemma CompareYields(e: Expr, x: Name, first: seq<Value>, l: Value, second: seq<Value>, v: Value, ops: Operators)
    requires e.Compare? && Yields(e.left, x, first, l, ops) && YieldsChain(l, e.ops, e.rights, x, second, v, ops)
    ensures Yields(e, x, first + second, v, ops)
  {
    forall answers: nat -> Value, st: State | Follows(answers, st.clock, first + second)
      ensures Ends(Eval(e, st, Quiet(answers, ops)), v, st, x, first + second)
    {
      FollowsBoth(answers, st.clock, first, second);
      var r := Eval(e.left, st, Quiet(answers, ops));
      assert Ends(r, l, st, x, first);
      assert Ends(EvalChain(l, e.ops, e.rights, r.value.st, Quiet(answers, ops)), v, r.value.st, x, second);
    }
  }

  /** The right side and the comparison of one link of a chain. */
  lemma LinkEnds(l: Value, operators: seq<Comparison>, rights: seq<Expr>, x: Name, first: seq<Value>, rv: Value,
                 second: seq<Value>, v: Value, answers: nat -> Value, st: State, ops: Operators)
    requires operators != [] && rights != [] && Follows(answers, st.clock, first + second)
    requires Yields(rights[0], x, first, rv, ops) && YieldsStep(operators[0], l, rv, x, second, v, ops)
    ensures var w := Quiet(answers, ops);
            var right := Eval(rights[0], st, w);
            && Ends(right, rv, st, x, first)
            && Ends(CompareValues(operators[0], l, rv, right.value.st, w), v, st, x, first + second)
  {
    hide Eval, CompareValues, Follows;
    FollowsBoth(answers, st.clock, first, second);
    var r := Eval(rights[0], st, Quiet(answers, ops));
    assert Ends(r, rv, st, x, first);
    assert Ends(CompareValues(operators[0], l, rv, r.value.st, Quiet(answers, ops)), v, r.value.st, x, second);
  }

  lemma ChainStops(l: Value, operators: seq<Comparison>, rights: seq<Expr>, x: Name, first: seq<Value>, rv: Value,
                   second: seq<Value>, v: Value, ops: Operators)
    requires operators != [] && rights != [] && (|operators| == 1 || |rights| == 1 || !Truth(v))
    requires Yields(rights[0], x, first, rv, ops) && YieldsStep(operators[0], l, rv, x, second, v, ops)
    ensures YieldsChain(l, operators, rights, x, first + second, v, ops)
  {
    forall answers: nat -> Value, st: State | Follows(answers, st.clock, first + second)
      ensures Ends(EvalChain(l, operators, rights, st, Quiet(answers, ops)), v, st, x, first + second)
    {
      LinkEnds(l, operators, rights, x, first, rv, second, v, answers, st, ops);
    }
  }

  lemma ChainContinues(l: Value, operators: seq<Comparison>, rights: seq<Expr>, x: Name, first: seq<Value>, rv: Value,
                       second: seq<Value>, t: Value, third: seq<Value>, v: Value, ops: Operators)
    requires |operators| > 1 && |rights| > 1 && Truth(t)
    requires Yields(rights[0], x, first, rv, ops) && YieldsStep(operators[0], l, rv, x, second, t, ops)
    requires YieldsChain(rv, operators[1..], rights[1..], x, third, v, ops)
    ensures YieldsChain(l, operators, rights, x, first + second + third, v, ops)
  {
    hide Eval, CompareValues, Follows, Yields, YieldsStep;
    forall answers: nat -> Value, st: State | Follows(answers, st.clock, first + second + third)
      ensures Ends(EvalChain(l, operators, rights, st, Quiet(answers, ops)), v, st, x, first + second + third)
    {
      var w := Quiet(answers, ops);
      FollowsBoth(answers, st.clock, first + second, third);
      LinkEnds(l, operators, rights, x, first, rv, second, t, answers, st, ops);
      var r := CompareValues(operators[0], l, rv, Eval(rights[0], st, w).value.st, w);
      assert Ends(EvalChain(rv, operators[1..], rights[1..], r.value.st, w), v, r.value.st, x, third);
    }
  }

  lemma RealiseStep(op: Comparison, l: Possible, lv: Value, r: Possible, rv: Value, x: Name, o: Possible, ops: Operators)
    returns (script: seq<Value>, v: Value)
    requires Fits(l, lv) && Fits(r, rv) && o in StepOutcomes(op, l, r, ops)
    ensures YieldsStep(op, lv, rv, x, script, v, ops) && Fits(o, v)
  {
    if op.Is? || op.IsNot? || l.Loose? || r.Loose? {
      v := Object(0, o.truth);
      script := [v];
      forall answers: nat -> Value, st: State | Follows(answers, st.clock, script)
        ensures Ends(CompareValues(op, lv, rv, st, Quiet(answers, ops)), v, st, x, script)
      {
        AskEnds(answers, ops, st, x, v);
      }
    } else {
      script, v := [], o.v;
    }
  }

  /** For every outcome there are answers that lead to it, whatever the state. */
  lemma {:induction false} Realise(e: Expr, x: Name, o: Possible, ops: Operators) returns (script: seq<Value>, v: Value)
    requires o in Outcomes(e, x, ops)
    ensures Yields(e, x, script, v, ops) && Fits(o, v)
    decreases e, 0
  {
    hide Yields, YieldsAll, YieldsBool, YieldsChain;
    if e.Constant? {
      script, v := [], Atom(e.c);
      ConstantYields(e, x, ops);
    } else if e.Load? {
      v := Object(0, o.truth);
      script := [v];
      LoadYields(e, x, v, ops);
    } else if e.Walrus? {
      script, v := Realise(e.value, x, o, ops);
      WalrusYields(e, x, script, v, ops);
    } else if e.BoolOp? {
      script, v := RealiseBool(e.isAnd, e.values, x, o, ops);
      BoolYields(e, x, script, v, ops);
    } else if e.Compare? {
      var l :| l in Outcomes(e.left, x, ops) && o in ChainOutcomes(l, e.ops, e.rights, x, ops);
      var first, lv := Realise(e.left, x, l, ops);
      var second;
      second, v := RealiseChain(l, lv, e.ops, e.rights, x, o, ops);
      script := first + second;
      CompareYields(e, x, first, lv, second, v, ops);
    } else if e.IfExp? {
      var t :| t in Outcomes(e.test, x, ops) && o in Outcomes(if Holds(t) then e.body else e.orelse, x, ops);
      var first, tv := Realise(e.test, x, t, ops);
      var second;
      second, v := Realise(if Holds(t) then e.body else e.orelse, x, o, ops);
      script := first + second;
      IfYields(e, x, first, tv, second, v, ops);
    } else if e.Display? {
      var vs :| vs in AllOutcomes(e.elts, x, ops) && o == if vs.Some? then Known(Sequence(e.isTuple, vs.value)) else Loose(e.elts != []);
      var items;
      script, items := RealiseAll(e.elts, x, vs, ops);
      v := Sequence(e.isTuple, items);
      DisplayYields(e, x, script, items, ops);
    } else {
      var vs :| vs in AllOutcomes(e.children, x, ops);
      var first, items := RealiseAll(e.children, x, vs, ops);
      v := Object(0, o.truth);
      script := first + [v];
      OtherYields(e, x, first, items, v, ops);
    }
  }

  lemma ConstantYields(e: Expr, x: Name, ops: Operators)
    requires e.Constant?
    ensures Yields(e, x, [], Atom(e.c), ops)
  {
  }

  lemma {:induction false} RealiseAll(es: seq<Expr>, x: Name, vs: Option<seq<Value>>, ops: Operators)
    returns (script: seq<Value>, values: seq<Value>)
    requires vs in AllOutcomes(es, x, ops)
    ensures YieldsAll(es, x, script, values, ops) && FitsAll(vs, values) && |values| == |es|
    decreases es, 1
  {
    if es == [] {
      script, values := [], [];
    } else {
      var o, more :| o in Outcomes(es[0], x, ops) && more in AllOutcomes(es[1..], x, ops) && vs == Joined(o, more);
      var first, v := Realise(es[0], x, o, ops);
      var second, rest := RealiseAll(es[1..], x, more, ops);
      script, values := first + second, [v] + rest;
      AllYields(es, x, first, v, second, rest, ops);
      JoinedFits(o, v, more, rest);
    }
  }

  lemma JoinedFits(o: Possible, v: Value, more: Option<seq<Value>>, rest: seq<Value>)
    requires Fits(o, v) && FitsAll(more, rest)
    ensures FitsAll(Joined(o, more), [v] + rest)
  {
    if o.Loose? {
      assert !IsLiteral(([v] + rest)[0]);
    } else if more.None? {
      var i :| 0 <= i < |rest| && !IsLiteral(rest[i]);
      assert !IsLiteral(([v] + rest)[i + 1]);
    }
  }

  lemma {:induction false} RealiseBool(isAnd: bool, values: seq<Expr>, x: Name, o: Possible, ops: Operators)
    returns (script: seq<Value>, v: Value)
    requires o in BoolOutcomes(isAnd, values, x, ops)
    ensures YieldsBool(isAnd, values, x, script, v, ops) && Fits(o, v)
    decreases values, 1
  {
    hide Yields, YieldsBool;
    if o in Outcomes(values[0], x, ops) && (|values| == 1 || Holds(o) != isAnd) {
      script, v := Realise(values[0], x, o, ops);
      BoolStops(isAnd, values, x, script, v, ops);
    } else {
      var t :| t in Outcomes(values[0], x, ops) && Holds(t) == isAnd;
      var first, tv := Realise(values[0], x, t, ops);
      var second;
      second, v := RealiseBool(isAnd, values[1..], x, o, ops);
      script := first + second;
      BoolContinues(isAnd, values, x, first, tv, second, v, ops);
    }
  }

  lemma {:induction false} RealiseChain(l: Possible, lv: Value, operators: seq<Comparison>, rights: seq<Expr>, x: Name,
                                        o: Possible, ops: Operators)
    returns (script: seq<Value>, v: Value)
    requires Fits(l, lv) && o in ChainOutcomes(l, operators, rights, x, ops)
    ensures YieldsChain(lv, operators, rights, x, script, v, ops) && Fits(o, v)
    decreases rights, 1
  {
    hide Yields, YieldsStep, YieldsChain;
    var last := |operators| == 1 || |rights| == 1;
    var r :| r in Outcomes(rights[0], x, ops) && LinkLeads(l, r, operators, rights, x, o, ops);
    var first, rv := Realise(rights[0], x, r, ops);
    if o in StepOutcomes(operators[0], l, r, ops) && (last || !Holds(o)) {
      var second;
      second, v := RealiseStep(operators[0], l, lv, r, rv, x, o, ops);
      script := first + second;
      ChainStops(lv, operators, rights, x, first, rv, second, v, ops);
    } else {
      assert LinkLeads(l, r, operators, rights, x, o, ops);
      assert !last;
      assert MayBe(StepOutcomes(operators[0], l, r, ops), true);
      assert o in ChainOutcomes(r, operators[1..], rights[1..], x, ops);
      var t :| t in StepOutcomes(operators[0], l, r, ops) && Holds(t) == true;
      var second, tv := RealiseStep(operators[0], l, lv, r, rv, x, t, ops);
      var third;
      third, v := RealiseChain(r, rv, operators[1..], rights[1..], x, o, ops);
      script := first + second + third;
      ChainContinues(lv, operators, rights, x, first, rv, second, tv, third, v, ops);
    }
  }

  /** The outcome r of the first right side can lead to the outcome o of the chain. */
  ghost predicate LinkLeads(l: Possible, r: Possible, operators: seq<Comparison>, rights: seq<Expr>, x: Name, o: Possible,
                            ops: Operators)
  {
    && operators != [] && rights != []
    && var last := |operators| == 1 || |rights| == 1;
       || (o in StepOutcomes(operators[0], l, r, ops) && (last || !Holds(o)))
       || (!last && MayBe(StepOutcomes(operators[0], l, r, ops), true) &&
           o in ChainOutcomes(r, operators[1..], rights[1..], x, ops))
  }

  lemma {:induction false} RealiseTarget(t: Target, x: Name, ops: Operators) returns (script: seq<Value>)
    requires TargetSkips(t, x, ops)
    ensures Skips(t, x, script, ops)
    decreases t, 0
  {
    if t.NameTarget? {
      script := [];
    } else if t.ItemTarget? {
      var o :| o in Outcomes(t.base, x, ops);
      var p :| p in Outcomes(t.index, x, ops);
      var first, b := Realise(t.base, x, o, ops);
      var second, i := Realise(t.index, x, p, ops);
      script := first + second;
      ItemSkips(t, x, first, b, second, i, ops);
    } else {
      script := RealiseTargets(t.elts, x, ops);
      TupleSkips(t, x, script, ops);
    }
  }

  lemma ItemSkips(t: Target, x: Name, first: seq<Value>, b: Value, second: seq<Value>, i: Value, ops: Operators)
    requires t.ItemTarget? && Yields(t.base, x, first, b, ops) && Yields(t.index, x, second, i, ops)
    ensures Skips(t, x, first + second, ops)
  {
    forall answers: nat -> Value, st: State | Follows(answers, st.clock, first + second)
      ensures Stores(Store(t, st, Quiet(answers, ops)), st, x, first + second)
    {
      FollowsBoth(answers, st.clock, first, second);
      var r := Eval(t.base, st, Quiet(answers, ops));
      assert Ends(r, b, st, x, first);
      assert Ends(Eval(t.index, r.value.st, Quiet(answers, ops)), i, r.value.st, x, second);
    }
  }

  lemma TupleSkips(t: Target, x: Name, script: seq<Value>, ops: Operators)
    requires t.TupleTarget? && SkipsAll(t.elts, x, script, ops)
    ensures Skips(t, x, script, ops)
  {
    forall answers: nat -> Value, st: State | Follows(answers, st.clock, script)
      ensures Stores(Store(t, st, Quiet(answers, ops)), st, x, script)
    {
      assert Stores(StoreAll(t.elts, st, Quiet(answers, ops)), st, x, script);
    }
  }

  lemma {:induction false} RealiseTargets(ts: seq<Target>, x: Name, ops: Operators) returns (script: seq<Value>)
    requires TargetsSkip(ts, x, ops)
    ensures SkipsAll(ts, x, script, ops)
    decreases ts, 1
  {
    if ts == [] {
      script := [];
    } else {
      var first := RealiseTarget(ts[0], x, ops);
      var second := RealiseTargets(ts[1..], x, ops);
      script := first + second;
      forall answers: nat -> Value, st: State | Follows(answers, st.clock, script)
        ensures Stores(StoreAll(ts, st, Quiet(answers, ops)), st, x, script)
      {
        FollowsBoth(answers, st.clock, first, second);
        var r := Store(ts[0], st, Quiet(answers, ops));
        assert Stores(r, st, x, first);
        assert Stores(StoreAll(ts[1..], r.value, Quiet(answers, ops)), r.value, x, second);
      }
    }
  }

  /** The answers of a script, and false values afterwards. */
  function Scripted(script: seq<Value>): nat -> Value {
    (n: nat) => if n < |script| then script[n] else Object(0, false)
  }

  lemma ScriptedFollows(script: seq<Value>)
    ensures Follows(Scripted(script), 0, script)
  {
  }

  /** The statement `targets = value` can finish without assigning x. */
  predicate AssignSkips(targets: seq<Target>, value: Expr, x: Name, ops: Operators) {
    Outcomes(value, x, ops) != {} && TargetsSkip(targets, x, ops)
  }
}
