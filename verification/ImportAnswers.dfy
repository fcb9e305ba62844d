/** What resolving a dotted name answers, from the events of the module it belongs to. */
module ImportAnswers {
  import opened Wrappers
  import opened ImportResolution
  import opened ImportClaims
  import opened ImportFacts

  // ---------- the body of a module, split at an event ----------

  lemma {:induction false} RunSplits(p: Program, st: State, m: Name, a: seq<Event>, b: seq<Event>, inherited: set<Name>)
    requires Valid(p, st) && m in st.modules
    ensures Run(p, st, m, a + b, inherited) == Run(p, Run(p, st, m, a, inherited), m, b, inherited)
    decreases |a|
  {
    hide Replay;
    if a == [] {
      assert a + b == b;
    } else {
      assert (a + b)[1..] == a[1..] + b;
      RunSplits(p, Replay(p, st, m, a[0], inherited), m, a[1..], b, inherited);
    }
  }

  /** A module that has not been loaded yet. */
  ghost predicate Fresh(p: Program, st: State, m: Name) {
    Valid(p, st) && Named(p) && m in p.bodies && m !in st.modules
  }

  /** The state in which the i-th event of the body of m is replayed when m is loaded. */
  ghost function Before(p: Program, st: State, m: Name, i: nat): (r: State)
    requires Fresh(p, st, m) && i <= |p.bodies[m]|
    ensures Valid(p, r) && m in r.modules
  {
    EnterIsValid(p, st, m);
    Run(p, Enter(st, m), m, p.bodies[m][..i], st.uncertain)
  }

  /** The last event of the body of m that may bind x. */
  ghost predicate LastTouching(p: Program, m: Name, i: nat, x: string)
    requires m in p.bodies
  {
    i < |p.bodies[m]| && Touches(p.bodies[m][i], x) && forall k :: i < k < |p.bodies[m]| ==> !Touches(p.bodies[m][k], x)
  }

  lemma LoadSplits(p: Program, st: State, m: Name, i: nat)
    requires Fresh(p, st, m) && i < |p.bodies[m]|
    ensures var events := p.bodies[m];
            var rest := Run(p, Replay(p, Before(p, st, m, i), m, events[i], st.uncertain), m, events[i + 1..], st.uncertain);
            Load(p, st, m) == rest.(loading := rest.loading - {m})
  {
    hide Replay;
    var events := p.bodies[m];
    EnterIsValid(p, st, m);
    assert events == events[..i] + events[i..];
    RunSplits(p, Enter(st, m), m, events[..i], events[i..], st.uncertain);
    assert events[i..][0] == events[i] && events[i..][1..] == events[i + 1..];
  }

  /** What holds of x right after its last event holds when the module has been loaded. */
  lemma LastEventStays(p: Program, st: State, m: Name, i: nat, x: string, c: Claim)
    requires Fresh(p, st, m) && LastTouching(p, m, i, x) && Coherent(p, c) && c.Bound? && c.d == m + [x]
    requires Holds(p, Replay(p, Before(p, st, m, i), m, p.bodies[m][i], st.uncertain), c)
    ensures Holds(p, Load(p, st, m), c)
  {
    hide Replay, Load, Run, Coherent, Before;
    var events := p.bodies[m];
    var now := Replay(p, Before(p, st, m, i), m, events[i], st.uncertain);
    LoadSplits(p, st, m, i);
    forall e | e in events[i + 1..]
      ensures Harmless(m, e, st.uncertain, c)
    {
      var k :| i < k < |events| && events[k] == e;
    }
    RunKeeps(p, now, m, events[i + 1..], st.uncertain, c);
  }

  /** What holds of a name that no event touches, if the module's own names are allowed to be unbound. */
  lemma UntouchedStays(p: Program, st: State, m: Name, x: string, c: Claim)
    requires Fresh(p, st, m) && Coherent(p, c) && c.Bound? && c.d == m + [x] && None in c.allowed
    requires (c.certain ==> c.d !in st.uncertain)
    requires forall e :: e in p.bodies[m] ==> !Touches(e, x) || (e.Wildcard? && c.allowed == {None})
    ensures Holds(p, Load(p, st, m), c)
  {
    hide Replay, Run, Coherent;
    EnterIsValid(p, st, m);
    assert Holds(p, Enter(st, m), c);
    RunKeeps(p, Enter(st, m), m, p.bodies[m], st.uncertain, c);
  }

  /** Resolving a name of a module not loaded yet loads the module and looks the name up. */
  lemma ResolvesInModule(p: Program, st: State, m: Name, x: string)
    requires Fresh(p, st, m) && !RuledOut(p, m + [x])
    ensures var s := Load(p, st, m);
            m in s.modules && Resolve(p, st, m + [x]) == (s, ResolveExport(p, s, m + [x], Lookup(s.modules[m], x)))
  {
    hide Load, RuledOut, ResolveExport;
    var q := m + [x];
    assert Parent(q) == m && Child(q) == x && |q| >= 2;
  }

  /** The answer for a name whose binding is known, and is no submodule. */
  lemma KnownAnswer(p: Program, st: State, m: Name, x: string, e: Export)
    requires Fresh(p, st, m) && !RuledOut(p, m + [x])
    requires Holds(p, Load(p, st, m), Bound(m + [x], {Some(e)}, true))
    ensures var r := Resolve(p, st, m + [x]);
            r.1 == if e.Known? && m !in r.0.failed then e.binding else Binding(m + [x], Unresolved)
  {
    hide Load, RuledOut;
    ResolvesInModule(p, st, m, x);
    assert Parent(m + [x]) == m;
  }

  /** Nothing else is called m.x, so only the body of m binds it, and nothing has put it in doubt. */
  ghost predicate Plainly(p: Program, st: State, m: Name, x: string) {
    Fresh(p, st, m) && !ModuleOrPackage(p, m + [x]) && !RuledOut(p, m + [x]) && m + [x] !in st.uncertain
  }

  lemma ReboundClaim(p: Program, s: State, m: Name, x: string, e: Export, inherited: set<Name>)
    requires Valid(p, s) && m in s.modules && m + [x] !in inherited
    ensures Holds(p, Rebind(p, s, m, x, e, inherited), Bound(m + [x], {Some(e)}, true))
  {
  }

  lemma BoundCoherent(p: Program, d: Name, e: Export)
    requires d != [] && !ModuleOrPackage(p, d)
    ensures Coherent(p, Bound(d, {Some(e)}, true))
  {
  }

  /** The core of the laws below: the last event binds x to e. */
  lemma LastBindingAnswers(p: Program, st: State, m: Name, x: string, i: nat, s: State, e: Export)
    requires Plainly(p, st, m, x) && LastTouching(p, m, i, x) && Valid(p, s) && m in s.modules
    requires Replay(p, Before(p, st, m, i), m, p.bodies[m][i], st.uncertain) == Rebind(p, s, m, x, e, st.uncertain)
    ensures var r := Resolve(p, st, m + [x]);
            r.1 == if e.Known? && m !in r.0.failed then e.binding else Binding(m + [x], Unresolved)
  {
    hide Replay, Load, Run, Rebind, Coherent, Holds, Resolve, Before, RuledOut;
    ReboundClaim(p, s, m, x, e, st.uncertain);
    BoundCoherent(p, m + [x], e);
    LastEventStays(p, st, m, i, x, Bound(m + [x], {Some(e)}, true));
    KnownAnswer(p, st, m, x, e);
  }

  // ---------- the laws ----------

  /** `import a.b` binds a to the package a; `import a.b as x` binds x to a.b. */
  lemma PlainImportAnswers(p: Program, st: State, m: Name, x: string, i: nat)
    requires Plainly(p, st, m, x) && LastTouching(p, m, i, x)
    requires p.bodies[m][i].Imported? && p.bodies[m][i].what.Plain? && p.bodies[m][i].what.target != []
    ensures var r, what := Resolve(p, st, m + [x]), p.bodies[m][i].what;
            var n := if what.renamed then what.target else what.target[..1];
            r.1 == if m in r.0.failed || RuledOut(p, n) || (!ModuleOrPackage(p, n) && IsInternal(p, n)) then Binding(m + [x], Unresolved)
                   else Binding(n, if ModuleOrPackage(p, n) then Module else External)
  {
    var what := p.bodies[m][i].what;
    PlainPerforms(p, Before(p, st, m, i), m, what);
    hide Load, Run, Rebind, Resolve, Before, RuledOut, IsInternal, Perform;
    ImportFinds(p, st, m, x, i);
  }

  lemma PlainPerforms(p: Program, s: State, m: Name, what: Import)
    requires Valid(p, s) && m in s.modules && what.Plain? && what.target != []
    ensures var n := if what.renamed then what.target else what.target[..1];
            Perform(p, s, m, what).1 ==
            Binding(n, if RuledOut(p, n) then Unresolved else if ModuleOrPackage(p, n) then Module
                       else if IsInternal(p, n) then Unresolved else External)
  {
    hide Demand, RuledOut, IsInternal;
  }

  lemma ImportReplays(p: Program, s: State, m: Name, e: Event, inherited: set<Name>)
    requires Valid(p, s) && m in s.modules && e.Imported?
    ensures var done := Perform(p, s, m, e.what);
            && Valid(p, done.0) && m in done.0.modules
            && Replay(p, s, m, e, inherited) ==
               Rebind(p, done.0, m, e.name, if done.1.category != Unresolved then Known(done.1) else Uncertain, inherited)
  {
    hide Perform, Rebind;
  }

  /** An import binds its name to what it finds. */
  lemma ImportFinds(p: Program, st: State, m: Name, x: string, i: nat)
    requires Plainly(p, st, m, x) && LastTouching(p, m, i, x) && p.bodies[m][i].Imported?
    ensures var r, found := Resolve(p, st, m + [x]), Perform(p, Before(p, st, m, i), m, p.bodies[m][i].what).1;
            r.1 == if m in r.0.failed || found.category == Unresolved then Binding(m + [x], Unresolved) else found
  {
    hide Load, Run, Rebind, Replay, Resolve, Before, RuledOut, Perform, Valid, Extends;
    var done := Perform(p, Before(p, st, m, i), m, p.bodies[m][i].what);
    ImportReplays(p, Before(p, st, m, i), m, p.bodies[m][i], st.uncertain);
    LastBindingAnswers(p, st, m, x, i, done.0, if done.1.category != Unresolved then Known(done.1) else Uncertain);
  }

  /** `from a import b as x` binds x to what a.b is at that moment. */
  lemma FromImportAnswers(p: Program, st: State, m: Name, x: string, i: nat)
    requires Plainly(p, st, m, x) && LastTouching(p, m, i, x)
    requires p.bodies[m][i].Imported? && p.bodies[m][i].what.From?
    ensures var r, what := Resolve(p, st, m + [x]), p.bodies[m][i].what;
            var taken := Resolve(p, Before(p, st, m, i), what.base + [what.alias]).1;
            r.1 == if m in r.0.failed || taken.category == Unresolved then Binding(m + [x], Unresolved) else taken
  {
    FromPerforms(p, Before(p, st, m, i), m, p.bodies[m][i].what);
    hide Load, Run, Rebind, Resolve, Before, RuledOut, Perform;
    ImportFinds(p, st, m, x, i);
  }

  lemma FromPerforms(p: Program, s: State, m: Name, what: Import)
    requires Valid(p, s) && m in s.modules && what.From?
    ensures Perform(p, s, m, what).1 == Resolve(p, s, what.base + [what.alias]).1
  {
    hide Resolve, TakeFrom;
  }

  /** A definition binds its name to the definition found for it. */
  lemma DefinitionAnswers(p: Program, st: State, m: Name, x: string, i: nat)
    requires Plainly(p, st, m, x) && LastTouching(p, m, i, x) && p.bodies[m][i].Definition?
    ensures var r, found := Resolve(p, st, m + [x]), p.bodies[m][i].found;
            r.1 == if m in r.0.failed || found.None? then Binding(m + [x], Unresolved) else found.value
  {
    hide Load, Run, Rebind, Resolve, Before, RuledOut;
    var found := p.bodies[m][i].found;
    LastBindingAnswers(p, st, m, x, i, Before(p, st, m, i), if found.Some? then Known(found.value) else Uncertain);
  }

  /** An assignment binds its name to the module's variable; an augmented one only where the name was bound for certain. */
  lemma AssignmentAnswers(p: Program, st: State, m: Name, x: string, i: nat)
    requires Plainly(p, st, m, x) && LastTouching(p, m, i, x) && (p.bodies[m][i].Assignment? || p.bodies[m][i].Augmented?)
    ensures var r, s := Resolve(p, st, m + [x]), Before(p, st, m, i);
            var certain := x in s.modules[m] && s.modules[m][x].Known? && m + [x] !in s.uncertain;
            r.1 == if m !in r.0.failed && m + [x] in p.variables && (p.bodies[m][i].Assignment? || certain)
                   then p.variables[m + [x]] else Binding(m + [x], Unresolved)
  {
    hide Load, Run, Rebind, Resolve, Before, RuledOut;
    var s := Before(p, st, m, i);
    var certain := x in s.modules[m] && s.modules[m][x].Known? && m + [x] !in s.uncertain;
    LastBindingAnswers(p, st, m, x, i, s, if p.bodies[m][i].Assignment? || certain then VariableOf(p, m, x) else Uncertain);
  }

  lemma UnboundClaim(p: Program, m: Name, x: string)
    requires !ModuleOrPackage(p, m + [x])
    ensures Coherent(p, Bound(m + [x], {None}, false)) && Coherent(p, Bound(m + [x], {Some(Uncertain)}, false))
  {
  }

  /** A name that is unbound, or bound to nothing certain, is unresolved. */
  lemma UnsureAnswer(p: Program, st: State, m: Name, x: string, e: Option<Export>)
    requires Fresh(p, st, m) && !ModuleOrPackage(p, m + [x]) && (e == None || e == Some(Uncertain))
    requires Holds(p, Load(p, st, m), Bound(m + [x], {e}, false))
    ensures Resolve(p, st, m + [x]).1 == Binding(m + [x], Unresolved)
  {
    hide Load, RuledOut;
    if !RuledOut(p, m + [x]) {
      ResolvesInModule(p, st, m, x);
      InternalName(p, m, m + [x]);
    }
  }

  /** A doubtful binding leaves the name unresolved; so does a wildcard import, whether or not the name was bound. */
  lemma DoubtfulAnswers(p: Program, st: State, m: Name, x: string, i: nat)
    requires Fresh(p, st, m) && !ModuleOrPackage(p, m + [x]) && LastTouching(p, m, i, x)
    requires p.bodies[m][i].Doubtful? || p.bodies[m][i].Wildcard?
    ensures Resolve(p, st, m + [x]).1 == Binding(m + [x], Unresolved)
  {
    hide Load, Run, Resolve, Before, RuledOut, Coherent;
    UnboundClaim(p, m, x);
    var s := Before(p, st, m, i);
    var e := if p.bodies[m][i].Doubtful? || x in s.modules[m] then Some(Uncertain) else None;
    assert Holds(p, Replay(p, s, m, p.bodies[m][i], st.uncertain), Bound(m + [x], {e}, false));
    LastEventStays(p, st, m, i, x, Bound(m + [x], {e}, false));
    UnsureAnswer(p, st, m, x, e);
  }

  /** A name that its module never binds is unresolved. */
  lemma MissingAnswers(p: Program, st: State, m: Name, x: string)
    requires Fresh(p, st, m) && !ModuleOrPackage(p, m + [x])
    requires forall e :: e in p.bodies[m] ==> !Touches(e, x) || e.Wildcard?
    ensures Resolve(p, st, m + [x]).1 == Binding(m + [x], Unresolved)
  {
    hide Load, Resolve, RuledOut, Coherent;
    UnboundClaim(p, m, x);
    UntouchedStays(p, st, m, x, Bound(m + [x], {None}, false));
    UnsureAnswer(p, st, m, x, None);
  }

  /** Doubt cast on a name before its module is loaded cannot be dispelled by the module's body. */
  lemma EarlierDoubtAnswers(p: Program, st: State, m: Name, x: string)
    requires Fresh(p, st, m) && !ModuleOrPackage(p, m + [x]) && m + [x] in st.uncertain
    ensures Resolve(p, st, m + [x]).1 == Binding(m + [x], Unresolved)
  {
    hide Load, RuledOut, IsInternal;
    var c := InDoubt(m + [x]);
    assert Coherent(p, c);
    LoadKeeps(p, st, m, c);
    if !RuledOut(p, m + [x]) {
      ResolvesInModule(p, st, m, x);
    }
  }

  // ---------- names of submodules ----------

  lemma SubmoduleClaim(p: Program, d: Name)
    requires d != [] && ModuleOrPackage(p, d)
    ensures Coherent(p, Bound(d, {None, Some(Known(ResolveModule(p, d)))}, false))
  {
  }

  /** A submodule whose name its package does not bind is found as a module, unless it is in doubt. */
  lemma SubmoduleAnswers(p: Program, st: State, m: Name, x: string)
    requires Fresh(p, st, m) && ModuleOrPackage(p, m + [x]) && !RuledOut(p, m + [x])
    requires forall e :: e in p.bodies[m] ==> !Touches(e, x)
    ensures var r := Resolve(p, st, m + [x]);
            && m in r.0.modules
            && var doubt := m + [x] in r.0.uncertain || m in r.0.failed || (x !in r.0.modules[m] && m in p.wildcards);
               r.1 == Binding(m + [x], if doubt then Unresolved else Module)
  {
    hide Load, RuledOut, Coherent;
    SubmoduleClaim(p, m + [x]);
    UntouchedStays(p, st, m, x, Bound(m + [x], {None, Some(Known(ResolveModule(p, m + [x])))}, false));
    ResolvesInModule(p, st, m, x);
    assert Parent(m + [x]) == m;
  }

  /** One whose name is bound is found as what it was bound to last or as the submodule, or it is in doubt. */
  lemma ShadowedSubmoduleAnswers(p: Program, st: State, m: Name, x: string, i: nat)
    requires Fresh(p, st, m) && ModuleOrPackage(p, m + [x]) && !RuledOut(p, m + [x]) && LastTouching(p, m, i, x)
    ensures var now := Replay(p, Before(p, st, m, i), m, p.bodies[m][i], st.uncertain);
            var r := Resolve(p, st, m + [x]).1;
            || r == Binding(m + [x], Module) || r == Binding(m + [x], Unresolved)
            || (x in now.modules[m] && now.modules[m][x] == Known(r))
  {
    hide Load, Run, RuledOut, Replay, Before;
    var now := Replay(p, Before(p, st, m, i), m, p.bodies[m][i], st.uncertain);
    var c := Bound(m + [x], {Lookup(now.modules[m], x), Some(Known(ResolveModule(p, m + [x])))}, false);
    LastEventStays(p, st, m, i, x, c);
    ResolvesInModule(p, st, m, x);
    assert Parent(m + [x]) == m;
  }

  // ---------- names of no module's ----------

  /** A name inside a package without a body is a submodule or unresolved, and resolving it changes nothing. */
  lemma NamespaceAnswers(p: Program, st: State, q: Name)
    requires Valid(p, st) && Named(p) && |q| >= 2 && q[..|q| - 1] in p.packages && q[..|q| - 1] !in p.bodies && !RuledOut(p, q)
    ensures var parent := q[..|q| - 1];
            var doubt := q in st.uncertain || parent in st.failed || parent in p.wildcards;
            Resolve(p, st, q).1 == Binding(q, if ModuleOrPackage(p, q) && !doubt then Module else Unresolved)
  {
    hide RuledOut;
    assert Parent(q) in p.packages && Parent(q)[0] == q[0];
  }

  /** Any other name is what the repository knows by it, unresolved if it belongs to the repository, and else external;
      a name that is ruled out is unresolved wherever it belongs. */
  lemma TopLevelAnswers(p: Program, st: State, q: Name)
    requires Valid(p, st) && (RuledOut(p, q) || |q| < 2 || !ModuleOrPackage(p, q[..|q| - 1]))
    ensures var r := Resolve(p, st, q);
            && r.0 == st && r.1.name == q
            && (r.1.category == Unresolved <==>
                  || RuledOut(p, q)
                  || (!ModuleOrPackage(p, q) && (if q in p.qualified then p.qualified[q].category == Unresolved else IsInternal(p, q))))
            && (r.1.category == External <==>
                  && !RuledOut(p, q) && !ModuleOrPackage(p, q)
                  && (if q in p.qualified then p.qualified[q].category == External else !IsInternal(p, q)))
            && (!RuledOut(p, q) && !ModuleOrPackage(p, q) && q in p.qualified ==> r.1.category == p.qualified[q].category)
            && (!RuledOut(p, q) && ModuleOrPackage(p, q) ==> r.1.category == Module)
  {
    hide RuledOut, IsInternal, Load;
  }

  // ---------- what importing does besides ----------

  lemma {:induction false} PrefixesSplit(p: Program, st: State, n: Name, k: nat)
    requires Valid(p, st) && n != [] && 1 <= k <= |n|
    ensures ImportPrefixes(p, st, n, k) ==
            ImportOne(p, if k == |n| then st else ImportPrefixes(p, st, n[..|n| - 1], k), n)
    decreases |n| - k
  {
    hide ImportOne;
    var front := n[..|n| - 1];
    if k < |n| {
      assert front[..k] == n[..k];
      PrefixesSplit(p, ImportOne(p, st, n[..k]), n, k + 1);
      assert k == |front| ==> ImportPrefixes(p, ImportOne(p, st, n[..k]), front, k + 1) == ImportOne(p, st, n[..k]);
    } else {
      assert n[..k] == n;
    }
  }

  /** Importing a.b.c imports a.b and then loads c; a module or package that was not loaded before becomes an attribute
      of its loaded parent, beyond doubt. */
  lemma ImportBindsAttribute(p: Program, st: State, n: Name)
    requires Valid(p, st) && |n| >= 2
    ensures var before, r := ImportModule(p, st, n[..|n| - 1]).0, ImportModule(p, st, n).0;
            && (n in p.bodies ==> n in r.modules)
            && (n !in before.modules && ModuleOrPackage(p, n) && n[..|n| - 1] in r.modules ==>
                  && n[|n| - 1] in r.modules[n[..|n| - 1]]
                  && r.modules[n[..|n| - 1]][n[|n| - 1]] == Known(ResolveModule(p, n)) && n !in r.uncertain)
  {
    hide Load, ResolveModule, ImportPrefixes;
    PrefixesSplit(p, st, n, 1);
  }

  /** A name is ruled out by a collision or a blocking module on the way to it, or by rivals of its own. */
  lemma RuledOutIff(p: Program, q: Name)
    requires Named(p) && [] !in p.collisions + p.blocked
    ensures RuledOut(p, q) <==> q in p.ambiguous || exists k :: 0 < k <= |q| && q[..k] in p.collisions + p.blocked
  {
    if n :| n in p.collisions + p.blocked && Under(n, q) {
      assert q[..|n|] == n;
    }
    if k :| 0 < k <= |q| && q[..k] in p.collisions + p.blocked {
      assert Under(q[..k], q);
    }
  }

  /** A name belongs to the repository if a module or package has the same first part. */
  lemma InternalIff(p: Program, q: Name)
    requires Named(p)
    ensures IsInternal(p, q) <==> q != [] && exists n :: n in p.bodies.Keys + p.packages && n[..1] == q[..1]
  {
    if q != [] {
      if n :| n in p.bodies.Keys + p.packages && n[..1] == q[..1] {
        assert n[..1][0] == n[0] && q[..1][0] == q[0];
      }
      if n :| n in p.bodies.Keys + p.packages && n != [] && n[0] == q[0] {
        assert n[..1] == [n[0]] && q[..1] == [q[0]];
      }
    }
  }

  lemma FromTakes(p: Program, st: State, m: Name, base: Name, alias: string)
    requires Valid(p, st) && m in st.modules
    ensures var found, r := Resolve(p, st, base + [alias]), Perform(p, st, m, From(base, alias));
            && r.1 == found.1 && Valid(p, found.0) && m in found.0.modules
            && r.0 == TakeFrom(p, found.0, m, base, alias, found.1)
  {
    hide Resolve, TakeFrom;
  }

  /** What taking a submodule from a package leads to. */
  lemma TakesSubmodule(p: Program, st: State, m: Name, base: Name, alias: string, found: Binding)
    requires Valid(p, st) && m in st.modules && found.category == Module && found.name != []
    ensures var r := TakeFrom(p, st, m, base, alias, found);
            && (found.name in p.bodies ==> found.name in r.modules)
            && (found.name == base + [alias] && base in r.modules ==> alias in r.modules[base])
  {
    var s := Fail(p, st, m, base in st.failed);
    DemandLoads(p, s, m, found.name);
    hide Demand;
  }

  lemma DemandLoads(p: Program, st: State, m: Name, n: Name)
    requires Valid(p, st) && m in st.modules && n != []
    ensures n in p.bodies ==> n in Demand(p, st, m, n).modules
  {
    hide ImportModule;
    ImportLoadsPrefixes(p, st, n);
    assert n[..|n|] == n;
  }

  /** `from a import b` of a submodule loads it and leaves b an attribute of a, whether or not it was loaded before. */
  lemma FromBindsSubmodule(p: Program, st: State, m: Name, base: Name, alias: string)
    requires Valid(p, st) && m in st.modules && Perform(p, st, m, From(base, alias)).1 == Binding(base + [alias], Module)
    ensures var r := Perform(p, st, m, From(base, alias)).0;
            && (base in r.modules ==> alias in r.modules[base])
            && (base + [alias] in p.bodies ==> base + [alias] in r.modules)
  {
    hide Resolve, TakeFrom, Perform;
    FromTakes(p, st, m, base, alias);
    var found := Resolve(p, st, base + [alias]);
    TakesSubmodule(p, found.0, m, base, alias, found.1);
  }

  /** A body that imports a name fails exactly if that import fails, or has failed for another reason. */
  lemma FailureSpreads(p: Program, st: State, m: Name, target: Name, renamed: bool)
    requires Valid(p, st) && m in st.modules && target != []
    ensures var failed, r := ImportModule(p, st, target).0.failed, Perform(p, st, m, Plain(target, renamed)).0;
            && r.failed - {m} == failed - {m}
            && (m in r.failed <==> m in failed || exists k :: 1 <= k <= |target| && target[..k] in failed)
  {
    hide *;
    ImportLoadsPrefixes(p, st, target);
    PlainFails(p, st, m, target, renamed);
  }

  lemma PlainFails(p: Program, st: State, m: Name, target: Name, renamed: bool)
    requires Valid(p, st) && m in st.modules
    ensures var imported, r := ImportModule(p, st, target), Perform(p, st, m, Plain(target, renamed)).0;
            r.failed == imported.0.failed + if imported.1 then {} else {m}
  {
    hide ImportModule, ResolveModule;
  }

  /** What has failed once a body that takes a name from base has imported the module n the name stands for. */
  ghost function FailedAfter(p: Program, st: State, m: Name, base: Name, n: Name): set<Name>
    requires Valid(p, st)
  {
    ImportModule(p, if base in st.failed then st.(failed := st.failed + {m}) else st, n).0.failed
  }

  /** Taking a name from a module that failed makes the importing body fail. Taking a name that is no module fails
      nothing else; one that is a module is imported, and the body fails exactly if that import does or it failed before. */
  lemma FailureSpreadsFrom(p: Program, st: State, m: Name, base: Name, alias: string)
    requires Valid(p, st) && m in st.modules
    ensures var found, r := Resolve(p, st, base + [alias]), Perform(p, st, m, From(base, alias)).0;
            && (base in found.0.failed ==> m in r.failed)
            && (found.1.category != Module ==> r.failed == found.0.failed + if base in found.0.failed then {m} else {})
            && (found.1.category == Module && found.1.name != [] ==>
                  var after := FailedAfter(p, found.0, m, base, found.1.name);
                  && r.failed - {m} == after - {m}
                  && (m in r.failed <==> m in after || exists k :: 1 <= k <= |found.1.name| && found.1.name[..k] in after))
  {
    hide Resolve, TakeFrom, Perform, FailedAfter;
    FromTakes(p, st, m, base, alias);
    var found := Resolve(p, st, base + [alias]);
    if found.1.category != Module || found.1.name == [] {
      TakesOther(p, found.0, m, base, alias, found.1);
    } else {
      ModuleTaken(p, found.0, m, base, alias, found.1);
    }
  }

  lemma ModuleTaken(p: Program, st: State, m: Name, base: Name, alias: string, found: Binding)
    requires Valid(p, st) && m in st.modules && found.category == Module && found.name != []
    ensures var r, after := TakeFrom(p, st, m, base, alias, found), FailedAfter(p, st, m, base, found.name);
            && (base in st.failed ==> m in r.failed) && r.failed - {m} == after - {m}
            && (m in r.failed <==> m in after || exists k :: 1 <= k <= |found.name| && found.name[..k] in after)
  {
    var s := Fail(p, st, m, base in st.failed);
    assert s == if base in st.failed then st.(failed := st.failed + {m}) else st;
    DemandFails(p, s, m, found.name);
    hide Demand, ImportModule;
  }

  lemma DemandFails(p: Program, st: State, m: Name, n: Name)
    requires Valid(p, st) && m in st.modules && n != []
    ensures var r, after := Demand(p, st, m, n).failed, ImportModule(p, st, n).0.failed;
            && st.failed <= r && r - {m} == after - {m}
            && (m in r <==> m in after || exists k :: 1 <= k <= |n| && n[..k] in after)
  {
    hide ImportModule;
    ImportLoadsPrefixes(p, st, n);
  }

  lemma TakesOther(p: Program, st: State, m: Name, base: Name, alias: string, found: Binding)
    requires Valid(p, st) && m in st.modules
    ensures var r := TakeFrom(p, st, m, base, alias, found);
            && (base in st.failed ==> m in r.failed)
            && (found.category != Module ==> r.failed == st.failed + if base in st.failed then {m} else {})
  {
    hide Demand;
  }

  /** In a circular import, a name that is not bound yet makes the module that is still loading fail. */
  lemma CircularImportFails(p: Program, st: State, m: Name, x: string)
    requires Valid(p, st) && Named(p) && m in st.loading && x !in st.modules[m]
    requires !ModuleOrPackage(p, m + [x]) && !RuledOut(p, m + [x])
    ensures Resolve(p, st, m + [x]) == (st.(failed := st.failed + {m}), Binding(m + [x], Unresolved))
  {
    hide RuledOut;
    AlreadyLoaded(p, st, m);
    assert Parent(m + [x]) == m && Child(m + [x]) == x;
  }

  /** r is st with doubt cast on exactly the names that are bound differently or in doubt in `taken`. */
  ghost predicate OnlyDoubts(st: State, taken: State, r: State) {
    && r.(uncertain := st.uncertain) == st
    && forall k: Name, y: string ::
         k + [y] in r.uncertain <==>
           || k + [y] in st.uncertain || k + [y] in taken.uncertain
           || (k in taken.modules && Lookup(ExportsIn(st.modules, k), y) != Lookup(taken.modules[k], y))
  }

  lemma DoubtMeans(st: State, taken: State)
    ensures OnlyDoubts(st, taken, Doubt(st, taken))
  {
    hide Differences, Lookup, ExportsIn;
    forall k: Name, y: string
      ensures k + [y] in Differences(st.modules, taken.modules) <==>
              k in taken.modules && Lookup(ExportsIn(st.modules, k), y) != Lookup(taken.modules[k], y)
    {
      DifferenceMeans(st.modules, taken.modules, k, y);
    }
  }

  /** A conditional import binds nothing and fails nothing; it casts doubt on exactly the names that taking it would
      bind differently or put in doubt. Taking `from a import b` imports a, resolves a.b, and imports it if it is a
      module. */
  lemma ConditionalOnlyDoubts(p: Program, st: State, m: Name, what: Import, inherited: set<Name>)
    requires Valid(p, st) && m in st.modules
    ensures var r := Replay(p, st, m, Conditional(what), inherited);
            && (what.Plain? ==> OnlyDoubts(st, ImportModule(p, st, what.target).0, r))
            && (what.From? ==>
                  var found := Resolve(p, ImportModule(p, st, what.base).0, what.base + [what.alias]);
                  OnlyDoubts(st, if found.1.category == Module then ImportModule(p, found.0, found.1.name).0 else found.0, r))
  {
    hide ImportModule, Resolve, Doubt, OnlyDoubts;
    DoubtMeans(st, Attempt(p, st, what));
  }

  lemma DifferenceMeans(before: map<Name, Exports>, after: map<Name, Exports>, k: Name, y: string)
    ensures k + [y] in Differences(before, after) <==>
            k in after && Lookup(ExportsIn(before, k), y) != Lookup(after[k], y)
  {
    if k + [y] in Differences(before, after) {
      var m: Name, x :| m in after && x in ExportsIn(before, m).Keys + after[m].Keys
                  && Lookup(ExportsIn(before, m), x) != Lookup(after[m], x) && m + [x] == k + [y];
      assert m == (m + [x])[..|m + [x]| - 1] == k && x == (m + [x])[|m|] == y;
    }
  }
}
