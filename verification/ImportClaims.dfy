/** What is bound or in doubt stays so through every import, unless its own module's body says otherwise. */
module ImportClaims {
  import opened Wrappers
  import opened ImportResolution

  // ---------- what no other module can change ----------

  /** A claim about a dotted name: what its loaded parent binds it to, for certain or not; or that it is in doubt. */
  datatype Claim =
    | Bound(d: Name, allowed: set<Option<Export>>, certain: bool)
    | InDoubt(d: Name)

  ghost predicate Holds(p: Program, st: State, c: Claim) {
    match c
    case Bound(d, allowed, certain) =>
      && Parent(d) in st.modules && Lookup(st.modules[Parent(d)], Child(d)) in allowed
      && (certain ==> d !in st.uncertain)
    case InDoubt(d) => d in st.uncertain
  }

  /** Importing a module or package binds it, so no claim may say otherwise; and a claim of certainty
      leaves one binding only. */
  ghost predicate Coherent(p: Program, c: Claim) {
    && c.d != []
    && match c
       case Bound(d, allowed, certain) =>
         && (ModuleOrPackage(p, d) ==> Some(Known(ResolveModule(p, d))) in allowed)
         && (!ModuleOrPackage(p, d) && None in allowed ==> allowed == {None})
         && (certain ==> exists o :: allowed == {o})
       case InDoubt(d) => !ModuleOrPackage(p, d)
  }

  /** The event may bind x in its module. */
  predicate Touches(e: Event, x: string) {
    match e
    case Wildcard => true
    case Conditional(_) => false
    case _ => e.name == x
  }

  /** What the body of m binds at this event has no bearing on the claim. */
  ghost predicate Harmless(m: Name, e: Event, inherited: set<Name>, c: Claim) {
    || m != Parent(c.d)
    || (c.InDoubt? && c.d in inherited)
    || (c.Bound? && (!Touches(e, Child(c.d)) || (e.Wildcard? && c.allowed == {None})))
  }

  /** Likewise for one name. */
  ghost predicate Elsewhere(m: Name, x: string, inherited: set<Name>, c: Claim) {
    m != Parent(c.d) || (c.InDoubt? && c.d in inherited) || (c.Bound? && x != Child(c.d))
  }

  predicate Named(p: Program) {
    [] !in p.bodies && [] !in p.packages
  }

  lemma LoadKeeps(p: Program, st: State, m: Name, c: Claim)
    requires Valid(p, st) && Named(p) && Coherent(p, c) && Holds(p, st, c)
    ensures Holds(p, Load(p, st, m), c)
    decreases Unloaded(p, st), 0, 0
  {
    hide Run;
    if m !in st.modules && m in p.bodies {
      EnterIsValid(p, st, m);
      RunKeeps(p, Enter(st, m), m, p.bodies[m], st.uncertain, c);
    }
  }

  lemma RunKeeps(p: Program, st: State, m: Name, events: seq<Event>, inherited: set<Name>, c: Claim)
    requires Valid(p, st) && Named(p) && m in st.modules && Coherent(p, c) && Holds(p, st, c)
    requires forall e :: e in events ==> Harmless(m, e, inherited, c)
    ensures Holds(p, Run(p, st, m, events, inherited), c)
    decreases Unloaded(p, st), 4, |events|
  {
    hide Holds, Replay;
    if events != [] {
      ReplayKeeps(p, st, m, events[0], inherited, c);
      RunKeeps(p, Replay(p, st, m, events[0], inherited), m, events[1..], inherited, c);
    }
  }

  lemma RebindKeeps(p: Program, st: State, m: Name, x: string, e: Export, inherited: set<Name>, c: Claim)
    requires Valid(p, st) && m in st.modules && c.d != [] && Elsewhere(m, x, inherited, c) && Holds(p, st, c)
    ensures Holds(p, Rebind(p, st, m, x, e, inherited), c)
    ensures Holds(p, Bind(st, m, x, e), c)
  {
    hide ResolveModule;
  }

  lemma WildcardKeeps(p: Program, st: State, m: Name, c: Claim)
    requires m in st.modules && (c.InDoubt? || m != Parent(c.d) || c.allowed == {None}) && Holds(p, st, c)
    ensures Holds(p, st.(modules := st.modules[m := map x | x in st.modules[m] :: Uncertain]), c)
  {
    hide ResolveModule;
  }

  lemma DoubtKeeps(p: Program, st: State, possible: State, c: Claim)
    requires Coherent(p, c) && Holds(p, st, c) && Holds(p, possible, c)
    ensures Holds(p, Doubt(st, possible), c)
  {
    hide ResolveModule;
    if c.Bound? && c.certain {
      assert forall m: Name, x :: m + [x] == c.d ==> m == Parent(c.d) && x == Child(c.d);
      assert c.d !in Differences(st.modules, possible.modules);
    }
  }

  /** The events that import nothing. */
  lemma OwnEventKeeps(p: Program, st: State, m: Name, e: Event, inherited: set<Name>, c: Claim)
    requires Valid(p, st) && m in st.modules && c.d != [] && Harmless(m, e, inherited, c) && Holds(p, st, c)
    requires !e.Conditional? && !e.Imported?
    ensures Holds(p, Replay(p, st, m, e, inherited), c)
  {
    hide Rebind, Bind, Holds, VariableOf, Valid, Extends;
    match e
    case Wildcard => WildcardKeeps(p, st, m, c);
    case Doubtful(x) => RebindKeeps(p, st, m, x, Uncertain, inherited, c);
    case Assignment(x) => RebindKeeps(p, st, m, x, VariableOf(p, m, x), inherited, c);
    case Augmented(x) =>
      RebindKeeps(p, st, m, x, VariableOf(p, m, x), inherited, c);
      RebindKeeps(p, st, m, x, Uncertain, inherited, c);
    case Definition(x, found) =>
      RebindKeeps(p, st, m, x, if found.Some? then Known(found.value) else Uncertain, inherited, c);
  }

  lemma ReplayKeeps(p: Program, st: State, m: Name, e: Event, inherited: set<Name>, c: Claim)
    requires Valid(p, st) && Named(p) && m in st.modules && Coherent(p, c) && Harmless(m, e, inherited, c) && Holds(p, st, c)
    ensures Holds(p, Replay(p, st, m, e, inherited), c)
    decreases Unloaded(p, st), 3, 0
  {
    hide Rebind, Bind, Doubt, Perform, Attempt, Holds, VariableOf, Extends, Valid;
    if e.Conditional? {
      AttemptKeeps(p, st, e.what, c);
      DoubtKeeps(p, st, Attempt(p, st, e.what), c);
    } else if e.Imported? {
      PerformKeeps(p, st, m, e.what, c);
      ImportedKeeps(p, st, m, e, inherited, c);
    } else {
      OwnEventKeeps(p, st, m, e, inherited, c);
    }
  }

  lemma ImportedKeeps(p: Program, st: State, m: Name, e: Event, inherited: set<Name>, c: Claim)
    requires Valid(p, st) && m in st.modules && c.d != [] && Harmless(m, e, inherited, c) && e.Imported?
    requires Holds(p, Perform(p, st, m, e.what).0, c)
    ensures Holds(p, Replay(p, st, m, e, inherited), c)
  {
    hide Rebind, Bind, Holds, Perform, Valid;
    var done := Perform(p, st, m, e.what);
    RebindKeeps(p, done.0, m, e.name, if done.1.category != Unresolved then Known(done.1) else Uncertain, inherited, c);
  }

  lemma FailKeeps(p: Program, st: State, m: Name, fails: bool, c: Claim)
    requires Valid(p, st) && Holds(p, st, c)
    ensures Holds(p, Fail(p, st, m, fails), c)
  {
  }

  /** If the claim allows the name to be unbound, it allows this binding too. */
  ghost predicate Expected(base: Name, alias: string, b: Binding, c: Claim) {
    c.Bound? && c.d == base + [alias] && b.name == c.d && b.category == Module && None in c.allowed ==> Some(Known(b)) in c.allowed
  }

  lemma AttachKeeps(p: Program, st: State, base: Name, alias: string, b: Binding, c: Claim)
    requires Valid(p, st) && c.d != [] && b.category == Module && Holds(p, st, c) && Expected(base, alias, b, c)
    ensures Holds(p, Attach(p, st, base, alias, b), c)
  {
    hide ResolveModule;
  }

  lemma DemandKeeps(p: Program, st: State, m: Name, n: Name, c: Claim)
    requires Valid(p, st) && Named(p) && m in st.modules && Coherent(p, c) && Holds(p, st, c)
    ensures Holds(p, Demand(p, st, m, n), c)
    decreases Unloaded(p, st), 2, 0
  {
    hide Holds, ImportModule, Fail;
    ImportKeeps(p, st, n, c);
    var imported := ImportModule(p, st, n);
    FailKeeps(p, imported.0, m, !imported.1, c);
  }

  lemma TakeFromKeeps(p: Program, st: State, m: Name, base: Name, alias: string, found: Binding, c: Claim)
    requires Valid(p, st) && Named(p) && m in st.modules && Coherent(p, c) && Holds(p, st, c) && Expected(base, alias, found, c)
    ensures Holds(p, TakeFrom(p, st, m, base, alias, found), c)
    decreases Unloaded(p, st), 2, 1
  {
    hide Holds, Demand, Fail, Attach;
    var s := Fail(p, st, m, base in st.failed);
    FailKeeps(p, st, m, base in st.failed, c);
    if found.category == Module {
      DemandKeeps(p, s, m, found.name, c);
      AttachKeeps(p, Demand(p, s, m, found.name), base, alias, found, c);
    }
  }

  /** Resolving a name that is claimed to be unbound finds no module, unless there is one to be bound. */
  lemma ResolvedAsExpected(p: Program, st: State, base: Name, alias: string, c: Claim)
    requires Valid(p, st) && Named(p) && Coherent(p, c) && Holds(p, st, c)
    ensures Expected(base, alias, Resolve(p, st, base + [alias]).1, c)
  {
    hide Load, RuledOut;
    var q := base + [alias];
    assert Parent(q) == base && Child(q) == alias;
    if c.Bound? && c.d == q && None in c.allowed && !ModuleOrPackage(p, q) {
      AlreadyLoaded(p, st, base);
      InternalName(p, base, q);
    }
  }

  lemma AlreadyLoaded(p: Program, st: State, m: Name)
    requires Valid(p, st) && m in st.modules
    ensures Load(p, st, m) == st
  {
  }

  lemma InternalName(p: Program, m: Name, q: Name)
    requires m in p.bodies && m != [] && q != [] && q[0] == m[0]
    ensures IsInternal(p, q)
  {
  }

  lemma PerformKeeps(p: Program, st: State, m: Name, what: Import, c: Claim)
    requires Valid(p, st) && Named(p) && m in st.modules && Coherent(p, c) && Holds(p, st, c)
    ensures Holds(p, Perform(p, st, m, what).0, c)
    decreases Unloaded(p, st), 2, 2
  {
    hide Holds, Demand, Resolve, TakeFrom;
    match what
    case Plain(target, _) => DemandKeeps(p, st, m, target, c);
    case From(base, alias) =>
      ResolveKeeps(p, st, base + [alias], c);
      var found := Resolve(p, st, base + [alias]);
      ResolvedAsExpected(p, st, base, alias, c);
      TakeFromKeeps(p, found.0, m, base, alias, found.1, c);
  }

  lemma AttemptKeeps(p: Program, st: State, what: Import, c: Claim)
    requires Valid(p, st) && Named(p) && Coherent(p, c) && Holds(p, st, c)
    ensures Holds(p, Attempt(p, st, what), c)
    decreases Unloaded(p, st), 2, 0
  {
    hide Holds, Resolve, ImportModule;
    match what
    case Plain(target, _) => ImportKeeps(p, st, target, c);
    case From(base, alias) =>
      ImportKeeps(p, st, base, c);
      var s := ImportModule(p, st, base).0;
      ResolveKeeps(p, s, base + [alias], c);
      var found := Resolve(p, s, base + [alias]);
      if found.1.category == Module {
        ImportKeeps(p, found.0, found.1.name, c);
      }
  }

  lemma ImportKeeps(p: Program, st: State, n: Name, c: Claim)
    requires Valid(p, st) && Named(p) && Coherent(p, c) && Holds(p, st, c)
    ensures Holds(p, ImportModule(p, st, n).0, c)
    decreases Unloaded(p, st), 1, 2
  {
    hide Holds, ImportOne, ImportPrefixes;
    if n == [] {
      OneKeeps(p, st, [], c);
    } else {
      PrefixesKeep(p, st, n, 1, c);
    }
  }

  lemma PrefixesKeep(p: Program, st: State, n: Name, k: nat, c: Claim)
    requires Valid(p, st) && Named(p) && 1 <= k <= |n| + 1 && Coherent(p, c) && Holds(p, st, c)
    ensures Holds(p, ImportPrefixes(p, st, n, k), c)
    decreases Unloaded(p, st), 1, 1, |n| + 1 - k
  {
    hide Holds, ImportOne;
    if k <= |n| {
      OneKeeps(p, st, n[..k], c);
      PrefixesKeep(p, ImportOne(p, st, n[..k]), n, k + 1, c);
    }
  }

  lemma OneKeeps(p: Program, st: State, n: Name, c: Claim)
    requires Valid(p, st) && Named(p) && Coherent(p, c) && Holds(p, st, c)
    ensures Holds(p, ImportOne(p, st, n), c)
    decreases Unloaded(p, st), 1, 0
  {
    hide Load, ResolveModule, Holds, Coherent, Bind, Parent, Child, Valid;
    LoadKeeps(p, st, n, c);
    var s := Load(p, st, n);
    if n !in st.modules && Parent(n) in s.modules && ModuleOrPackage(p, n) {
      BindKeeps(p, s, n, c);
    }
  }

  lemma BindKeeps(p: Program, st: State, n: Name, c: Claim)
    requires n != [] && Parent(n) in st.modules && ModuleOrPackage(p, n) && Coherent(p, c) && Holds(p, st, c)
    ensures Holds(p, Bind(st, Parent(n), Child(n), Known(ResolveModule(p, n))).(uncertain := st.uncertain - {n}), c)
  {
    hide ResolveModule;
    if Parent(n) == Parent(c.d) && Child(n) == Child(c.d) {
      assert n == Parent(n) + [Child(n)] && c.d == Parent(c.d) + [Child(c.d)];
    }
  }

  lemma ResolveKeeps(p: Program, st: State, q: Name, c: Claim)
    requires Valid(p, st) && Named(p) && Coherent(p, c) && Holds(p, st, c)
    ensures Holds(p, Resolve(p, st, q).0, c)
    decreases Unloaded(p, st), 1, 0
  {
    hide Load, RuledOut, ResolveExport, ResolveKnown, ResolveModule;
    if |q| >= 2 && ModuleOrPackage(p, Parent(q)) {
      LoadKeeps(p, st, Parent(q), c);
    }
  }
}
