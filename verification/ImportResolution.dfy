/** What importing does to the state of a resolution: module bodies are replayed, through cycles and
    conditional imports, on the bindings made so far. */
module ImportResolution {
  import opened Wrappers

  /** A dotted name by its parts; the empty name stands for an absent package. */
  type Name = seq<string>

  datatype Category = Module | Class | Symbol | External | Unresolved
  datatype Binding = Binding(name: Name, category: Category)
  datatype Export = Known(binding: Binding) | Uncertain
  type Exports = map<string, Export>

  datatype Import = Plain(target: Name, renamed: bool) | From(base: Name, alias: string)

  /** What a module's body does to its own names, in order. */
  datatype Event =
    | Wildcard
    | Conditional(what: Import)
    | Doubtful(name: string)
    | Assignment(name: string)
    | Augmented(name: string)
    | Definition(name: string, found: Option<Binding>)
    | Imported(name: string, what: Import)

  /** The analyzed repository: module bodies, packages, the node of each known name, and the names that
      are ruled out. No module or package has an empty name. */
  datatype Program = Program(bodies: map<Name, seq<Event>>, packages: set<Name>, qualified: map<Name, Binding>,
                             variables: map<Name, Binding>, collisions: set<Name>, blocked: set<Name>,
                             ambiguous: set<Name>, wildcards: set<Name>)

  /** `log` lists the bodies whose replay has begun. */
  datatype State = State(modules: map<Name, Exports>, failed: set<Name>, loading: set<Name>, uncertain: set<Name>,
                         log: seq<Name>)

  const EMPTY := State(map[], {}, {}, {}, [])

  // ---------- names ----------

  function Parent(n: Name): Name {
    if n == [] then [] else n[..|n| - 1]
  }

  function First(n: Name): Name {
    if n == [] then [] else n[..1]
  }

  function Child(n: Name): string {
    if n == [] then "" else n[|n| - 1]
  }

  predicate Under(n: Name, q: Name) {
    if n == [] then q == [] else n <= q
  }

  predicate ModuleOrPackage(p: Program, n: Name) {
    n in p.bodies || n in p.packages
  }

  predicate IsInternal(p: Program, q: Name) {
    exists n :: n in p.bodies.Keys + p.packages && n != [] && q != [] && n[0] == q[0]
  }

  predicate RuledOut(p: Program, q: Name) {
    || (exists n :: n in p.collisions && Under(n, q))
    || (exists n :: n in p.blocked && Under(n, q))
    || q in p.ambiguous
  }

  function ResolveModule(p: Program, q: Name): Binding {
    if RuledOut(p, q) then Binding(q, Unresolved)
    else if ModuleOrPackage(p, q) then Binding(q, Module)
    else if IsInternal(p, q) then Binding(q, Unresolved)
    else Binding(q, External)
  }

  // ---------- states ----------

  function ExportsIn(modules: map<Name, Exports>, m: Name): Exports {
    if m in modules then modules[m] else map[]
  }

  function ExportsOf(st: State, m: Name): Exports {
    ExportsIn(st.modules, m)
  }

  function Lookup(e: Exports, name: string): Option<Export> {
    if name in e then Some(e[name]) else None
  }

  function Bind(st: State, m: Name, name: string, e: Export): State
    requires m in st.modules
  {
    st.(modules := st.modules[m := st.modules[m][name := e]])
  }

  /** A name bound for certain is certain again, unless an earlier conditional load made it doubtful. */
  function Settle(st: State, q: Name, inherited: set<Name>): State {
    if q in inherited then st else st.(uncertain := st.uncertain - {q})
  }

  ghost predicate NoRepeats(log: seq<Name>) {
    forall i, j :: 0 <= i < j < |log| ==> log[i] != log[j]
  }

  /** Only known modules are loaded, each with its body begun exactly once; those still loading are among them. */
  ghost predicate Valid(p: Program, st: State) {
    && st.loading <= st.modules.Keys <= p.bodies.Keys
    && NoRepeats(st.log) && forall m :: m in st.log <==> m in st.modules
  }

  /** Nothing loaded is forgotten, no replay is undone, and what is loading is as it was. */
  ghost predicate Extends(p: Program, st: State, r: State) {
    && Valid(p, r) && st.modules.Keys <= r.modules.Keys && st.failed <= r.failed && r.loading == st.loading
    && st.log <= r.log
  }

  ghost function Fail(p: Program, st: State, m: Name, fails: bool): (r: State)
    requires Valid(p, st)
    ensures Extends(p, st, r) && r.modules == st.modules
  {
    if fails then st.(failed := st.failed + {m}) else st
  }

  /** A submodule becomes an attribute of its package where the package has none of that name. */
  ghost function Attach(p: Program, st: State, base: Name, alias: string, b: Binding): (r: State)
    requires Valid(p, st)
    ensures Extends(p, st, r)
  {
    if base in st.modules && b.name == base + [alias] && alias !in st.modules[base]
    then Bind(st, base, alias, Known(b)) else st
  }

  function Enter(st: State, m: Name): State {
    st.(modules := st.modules[m := map[]], loading := st.loading + {m}, log := st.log + [m])
  }

  ghost function Unloaded(p: Program, st: State): set<Name> {
    p.bodies.Keys - st.modules.Keys
  }

  lemma EnterIsValid(p: Program, st: State, m: Name)
    requires Valid(p, st) && m in p.bodies && m !in st.modules
    ensures Valid(p, Enter(st, m)) && Unloaded(p, Enter(st, m)) < Unloaded(p, st)
  {
    assert m in Unloaded(p, st) && m !in Unloaded(p, Enter(st, m));
  }

  lemma LeaveExtends(p: Program, st: State, m: Name, r: State)
    requires Valid(p, st) && m !in st.modules && Extends(p, Enter(st, m), r)
    ensures Extends(p, st, r.(loading := r.loading - {m}))
  {
    assert st.log <= Enter(st, m).log;
  }

  /** The names whose bindings the two states of a module disagree on. */
  function Differences(before: map<Name, Exports>, after: map<Name, Exports>): set<Name> {
    set m, x | m in after && x in ExportsIn(before, m).Keys + after[m].Keys
               && Lookup(ExportsIn(before, m), x) != Lookup(after[m], x) :: m + [x]
  }

  ghost function Rebind(p: Program, st: State, m: Name, x: string, e: Export, inherited: set<Name>): (r: State)
    requires Valid(p, st) && m in st.modules
    ensures Extends(p, st, r)
  {
    Settle(Bind(st, m, x, e), m + [x], inherited)
  }

  // ---------- the resolution ----------

  /** Begins and runs a module's body unless that has begun already. */
  ghost function Load(p: Program, st: State, m: Name): (r: State)
    requires Valid(p, st)
    ensures Extends(p, st, r) && (m in p.bodies ==> m in r.modules)
    decreases Unloaded(p, st), 0, 0
  {
    if m in st.modules || m !in p.bodies then st
    else
      EnterIsValid(p, st, m);
      var done := Run(p, Enter(st, m), m, p.bodies[m], st.uncertain);
      LeaveExtends(p, st, m, done);
      done.(loading := done.loading - {m})
  }

  ghost function Run(p: Program, st: State, m: Name, events: seq<Event>, inherited: set<Name>): (r: State)
    requires Valid(p, st) && m in st.modules
    ensures Extends(p, st, r)
    decreases Unloaded(p, st), 4, |events|
  {
    if events == [] then st else Run(p, Replay(p, st, m, events[0], inherited), m, events[1..], inherited)
  }

  /** One event of the body of m. */
  ghost function Replay(p: Program, st: State, m: Name, e: Event, inherited: set<Name>): (r: State)
    requires Valid(p, st) && m in st.modules
    ensures Extends(p, st, r)
    decreases Unloaded(p, st), 3, 0
  {
    match e
    case Wildcard => st.(modules := st.modules[m := map x | x in st.modules[m] :: Uncertain])
    case Conditional(what) => Doubt(st, Attempt(p, st, what))
    case Doubtful(x) => Bind(st, m, x, Uncertain)
    case Assignment(x) => Rebind(p, st, m, x, VariableOf(p, m, x), inherited)
    case Augmented(x) =>
      var certain := x in st.modules[m] && st.modules[m][x].Known? && m + [x] !in st.uncertain;
      Rebind(p, st, m, x, if certain then VariableOf(p, m, x) else Uncertain, inherited)
    case Definition(x, found) => Rebind(p, st, m, x, if found.Some? then Known(found.value) else Uncertain, inherited)
    case Imported(x, what) =>
      var done := Perform(p, st, m, what);
      Rebind(p, done.0, m, x, if done.1.category != Unresolved then Known(done.1) else Uncertain, inherited)
  }

  function VariableOf(p: Program, m: Name, x: string): Export {
    if m + [x] in p.variables then Known(p.variables[m + [x]]) else Uncertain
  }

  /** An import statement in the body of m: what it binds its name to. */
  ghost function Perform(p: Program, st: State, m: Name, what: Import): (r: (State, Binding))
    requires Valid(p, st) && m in st.modules
    ensures Extends(p, st, r.0)
    decreases Unloaded(p, st), 2, 2
  {
    match what
    case Plain(target, renamed) => (Demand(p, st, m, target), ResolveModule(p, if renamed then target else First(target)))
    case From(base, alias) =>
      var found := Resolve(p, st, base + [alias]);
      (TakeFrom(p, found.0, m, base, alias, found.1), found.1)
  }

  /** What else happens when the body of m takes a name from a package. */
  ghost function TakeFrom(p: Program, st: State, m: Name, base: Name, alias: string, found: Binding): (r: State)
    requires Valid(p, st) && m in st.modules
    ensures Extends(p, st, r)
    decreases Unloaded(p, st), 2, 1
  {
    var s := Fail(p, st, m, base in st.failed);
    if found.category == Module then Attach(p, Demand(p, s, m, found.name), base, alias, found) else s
  }

  /** The body of m imports n, and fails if that fails. */
  ghost function Demand(p: Program, st: State, m: Name, n: Name): (r: State)
    requires Valid(p, st) && m in st.modules
    ensures Extends(p, st, r)
    decreases Unloaded(p, st), 2, 0
  {
    var imported := ImportModule(p, st, n);
    Fail(p, imported.0, m, !imported.1)
  }

  /** A conditional import as it would go if it were taken. */
  ghost function Attempt(p: Program, st: State, what: Import): (r: State)
    requires Valid(p, st)
    ensures Extends(p, st, r)
    decreases Unloaded(p, st), 2, 0
  {
    match what
    case Plain(target, _) => ImportModule(p, st, target).0
    case From(base, alias) =>
      var found := Resolve(p, ImportModule(p, st, base).0, base + [alias]);
      if found.1.category == Module then ImportModule(p, found.0, found.1.name).0 else found.0
  }

  /** Only doubt is kept of it. */
  function Doubt(st: State, possible: State): State {
    st.(uncertain := st.uncertain + possible.uncertain + Differences(st.modules, possible.modules))
  }

  /** Importing a dotted name imports each of its prefixes; it succeeds if none of them has failed. */
  ghost function ImportModule(p: Program, st: State, n: Name): (r: (State, bool))
    requires Valid(p, st)
    ensures Extends(p, st, r.0)
    decreases Unloaded(p, st), 1, 2
  {
    var s := if n == [] then ImportOne(p, st, []) else ImportPrefixes(p, st, n, 1);
    (s, n !in s.failed && forall k :: 1 <= k <= |n| ==> n[..k] !in s.failed)
  }

  ghost function ImportPrefixes(p: Program, st: State, n: Name, k: nat): (r: State)
    requires Valid(p, st) && 1 <= k <= |n| + 1
    ensures Extends(p, st, r)
    decreases Unloaded(p, st), 1, 1, |n| + 1 - k
  {
    if k > |n| then st else ImportPrefixes(p, ImportOne(p, st, n[..k]), n, k + 1)
  }

  /** One prefix: a module not loaded before becomes an attribute of its package. */
  ghost function ImportOne(p: Program, st: State, n: Name): (r: State)
    requires Valid(p, st)
    ensures Extends(p, st, r)
    decreases Unloaded(p, st), 1, 0
  {
    var s := Load(p, st, n);
    if n !in st.modules && Parent(n) in s.modules && ModuleOrPackage(p, n)
    then Bind(s, Parent(n), Child(n), Known(ResolveModule(p, n))).(uncertain := s.uncertain - {n})
    else s
  }

  /** A name's binding: an export of its module where there is one. */
  ghost function Resolve(p: Program, st: State, q: Name): (r: (State, Binding))
    requires Valid(p, st)
    ensures Extends(p, st, r.0)
    decreases Unloaded(p, st), 1, 0
  {
    if RuledOut(p, q) then (st, Binding(q, Unresolved))
    else if |q| >= 2 && ModuleOrPackage(p, Parent(q)) then
      var s := Load(p, st, Parent(q));
      var bound := Lookup(ExportsOf(s, Parent(q)), Child(q));
      var t := Fail(p, s, Parent(q), bound == None && Parent(q) in s.loading && !ModuleOrPackage(p, q));
      (t, ResolveExport(p, t, q, bound))
    else (st, ResolveKnown(p, q))
  }

  function ResolveExport(p: Program, st: State, q: Name, bound: Option<Export>): Binding {
    var doubtful := q in st.uncertain || Parent(q) in st.failed || (bound == None && Parent(q) in p.wildcards);
    if !doubtful && bound.Some? && bound.value.Known? then bound.value.binding
    else if doubtful || bound == Some(Uncertain) || (IsInternal(p, q) && !ModuleOrPackage(p, q)) then Binding(q, Unresolved)
    else if ModuleOrPackage(p, q) then Binding(q, Module)
    else Binding(q, External)
  }

  function ResolveKnown(p: Program, q: Name): Binding {
    if ModuleOrPackage(p, q) then Binding(q, Module)
    else if q in p.qualified then Binding(q, p.qualified[q].category)
    else if IsInternal(p, q) then Binding(q, Unresolved)
    else Binding(q, External)
  }
}
