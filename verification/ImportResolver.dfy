/** The resolver: it updates one import state in place, and tries conditional imports on a copy. */
module ImportResolver {
  import opened Wrappers
  import opened ImportResolution

  class ImportState {
    var modules: map<Name, Exports>
    var failed: set<Name>
    var loading: set<Name>
    var uncertain: set<Name>
    ghost var log: seq<Name>

    ghost function View(): State
      reads this
    {
      State(modules, failed, loading, uncertain, log)
    }

    constructor ()
      ensures View() == EMPTY
    {
      modules, failed, loading, uncertain := map[], {}, {}, {};
      log := [];
    }

    constructor Copy(state: ImportState)
      ensures View() == state.View()
    {
      modules, failed, loading, uncertain := state.modules, state.failed, state.loading, state.uncertain;
      log := state.log;
    }

    method Bind(m: Name, name: string, e: Export)
      requires m in modules
      modifies this`modules
      ensures View() == ImportResolution.Bind(old(View()), m, name, e)
    {
      modules := modules[m := modules[m][name := e]];
    }

    method Settle(q: Name, inherited: set<Name>)
      modifies this`uncertain
      ensures View() == ImportResolution.Settle(old(View()), q, inherited)
    {
      if q !in inherited {
        uncertain := uncertain - {q};
      }
    }
  }

  class Analyzer {
    const p: Program

    constructor (p: Program)
      ensures this.p == p
    {
      this.p := p;
    }

    method ModuleExports(m: Name, state: ImportState) returns (exports: Exports)
      requires Valid(p, state.View())
      modifies state
      ensures state.View() == Load(p, old(state.View()), m) && Valid(p, state.View())
      ensures exports == ExportsOf(state.View(), m)
      ensures state.loading == old(state.loading)
      decreases Unloaded(p, state.View()), 0, 0
    {
      hide Replay, Run;
      if m in state.modules {
        return state.modules[m];
      }
      if m !in p.bodies {
        return map[];
      }
      ghost var before := state.View();
      EnterIsValid(p, before, m);
      state.modules := state.modules[m := map[]];
      state.loading := state.loading + {m};
      state.log := state.log + [m];
      assert state.View() == Enter(before, m);
      var inherited := state.uncertain;
      var events := p.bodies[m];
      ghost var entered := state.View();
      for i := 0 to |events|
        invariant Valid(p, state.View()) && m in state.modules && Extends(p, entered, state.View())
        invariant Run(p, entered, m, events, inherited) == Run(p, state.View(), m, events[i..], inherited)
      {
        ghost var now := state.View();
        RunStep(p, now, m, events[i..], inherited);
        StillSmaller(p, before, entered, now);
        assert events[i..][1..] == events[i + 1..];
        ReplayEvent(m, events[i], inherited, state);
        ExtendsFurther(p, entered, now, state.View());
      }
      RunNothing(p, state.View(), m, events[|events|..], inherited);
      assert state.View() == Run(p, entered, m, events, inherited);
      LeaveExtends(p, before, m, state.View());
      state.loading := state.loading - {m};
      exports := state.modules[m];
    }

    /** One event of the body of m. */
    method ReplayEvent(m: Name, e: Event, inherited: set<Name>, state: ImportState)
      requires Valid(p, state.View()) && m in state.modules
      modifies state
      ensures state.View() == Replay(p, old(state.View()), m, e, inherited)
      decreases Unloaded(p, state.View()), 3, 0
    {
      hide Attempt, Perform, Extends, ResolveModule;
      ghost var before := state.View();
      if e.Wildcard? {
        var exports := state.modules[m];
        state.modules := state.modules[m := map x | x in exports :: Uncertain];
      } else if e.Conditional? {
        var possible := new ImportState.Copy(state);
        Try(e.what, possible);
        state.uncertain := state.uncertain + possible.uncertain;
        state.uncertain := state.uncertain + Differences(state.modules, possible.modules);
      } else if e.Doubtful? {
        state.Bind(m, e.name, Uncertain);
      } else if e.Assignment? || e.Augmented? {
        var found := m + [e.name] in p.variables;
        if e.Augmented? {
          var exports := state.modules[m];
          if e.name !in exports || !exports[e.name].Known? || m + [e.name] in state.uncertain {
            found := false;
          }
        }
        state.Bind(m, e.name, if found then Known(p.variables[m + [e.name]]) else Uncertain);
        state.Settle(m + [e.name], inherited);
      } else if e.Definition? {
        state.Bind(m, e.name, if e.found.Some? then Known(e.found.value) else Uncertain);
        state.Settle(m + [e.name], inherited);
      } else {
        var target := PerformImport(m, e.what, state);
        state.Bind(m, e.name, if target.category != Unresolved then Known(target) else Uncertain);
        state.Settle(m + [e.name], inherited);
      }
    }

    /** Takes a conditional import, on a copy of the state. */
    method Try(what: Import, possible: ImportState)
      requires Valid(p, possible.View())
      modifies possible
      ensures possible.View() == Attempt(p, old(possible.View()), what)
      decreases Unloaded(p, possible.View()), 2, 0
    {
      hide ImportResolution.ImportModule, Resolve;
      if what.Plain? {
        var ok := ImportModule(what.target, possible);
      } else {
        var ok := ImportModule(what.base, possible);
        var target := ResolveAbsolute(what.base + [what.alias], possible);
        if target.category == Module {
          ok := ImportModule(target.name, possible);
        }
      }
    }

    method PerformImport(m: Name, what: Import, state: ImportState) returns (target: Binding)
      requires Valid(p, state.View()) && m in state.modules
      modifies state
      ensures (state.View(), target) == Perform(p, old(state.View()), m, what)
      ensures m in state.modules
      decreases Unloaded(p, state.View()), 2, 2
    {
      hide Demand, TakeFrom, Resolve, ResolveModule;
      if what.Plain? {
        DemandModule(m, what.target, state);
        target := ResolveModule(p, if what.renamed then what.target else First(what.target));
      } else {
        target := ResolveAbsolute(what.base + [what.alias], state);
        Take(m, what.base, what.alias, target, state);
      }
    }

    /** What else happens when the body of m takes a name from a package. */
    method Take(m: Name, base: Name, alias: string, target: Binding, state: ImportState)
      requires Valid(p, state.View()) && m in state.modules
      modifies state
      ensures state.View() == TakeFrom(p, old(state.View()), m, base, alias, target)
      decreases Unloaded(p, state.View()), 2, 1
    {
      hide Demand;
      if base in state.failed {
        state.failed := state.failed + {m};
      }
      if target.category == Module {
        DemandModule(m, target.name, state);
        if base in state.modules && target.name == base + [alias] && alias !in state.modules[base] {
          state.Bind(base, alias, Known(target));
        }
      }
    }

    method DemandModule(m: Name, n: Name, state: ImportState)
      requires Valid(p, state.View()) && m in state.modules
      modifies state
      ensures state.View() == Demand(p, old(state.View()), m, n)
      decreases Unloaded(p, state.View()), 2, 0
    {
      hide ImportResolution.ImportModule;
      var ok := ImportModule(n, state);
      if !ok {
        state.failed := state.failed + {m};
      }
    }

    method ImportModule(n: Name, state: ImportState) returns (ok: bool)
      requires Valid(p, state.View())
      modifies state
      ensures (state.View(), ok) == ImportResolution.ImportModule(p, old(state.View()), n)
      decreases Unloaded(p, state.View()), 1, 2
    {
      hide ImportOne, ImportPrefixes, Valid, Unloaded;
      ghost var before := state.View();
      if n == [] {
        ImportDependency([], state);
      } else {
        var k := 1;
        while k <= |n|
          invariant 1 <= k <= |n| + 1 && Valid(p, state.View()) && Unloaded(p, state.View()) <= Unloaded(p, before)
          invariant ImportPrefixes(p, before, n, 1) == ImportPrefixes(p, state.View(), n, k)
          decreases |n| + 1 - k
        {
          ghost var now := state.View();
          PrefixStep(p, now, n, k);
          OneExtends(p, now, n[..k]);
          ImportDependency(n[..k], state);
          k := k + 1;
        }
        PrefixStep(p, state.View(), n, k);
      }
      ok := n !in state.failed && forall k :: 1 <= k <= |n| ==> n[..k] !in state.failed;
    }

    method ImportDependency(dependency: Name, state: ImportState)
      requires Valid(p, state.View())
      modifies state
      ensures state.View() == ImportOne(p, old(state.View()), dependency)
      decreases Unloaded(p, state.View()), 1, 0
    {
      hide Load, ResolveModule;
      var loaded := dependency in state.modules;
      var exports := ModuleExports(dependency, state);
      if !loaded && Parent(dependency) in state.modules && ModuleOrPackage(p, dependency) {
        state.Bind(Parent(dependency), Child(dependency), Known(ResolveModule(p, dependency)));
        state.uncertain := state.uncertain - {dependency};
      }
    }

    method ResolveAbsolute(q: Name, state: ImportState) returns (b: Binding)
      requires Valid(p, state.View())
      modifies state
      ensures (state.View(), b) == Resolve(p, old(state.View()), q)
      decreases Unloaded(p, state.View()), 1, 0
    {
      hide Load, RuledOut, IsInternal;
      if RuledOut(p, q) {
        return Binding(q, Unresolved);
      }
      if |q| >= 2 && ModuleOrPackage(p, Parent(q)) {
        var exports := ModuleExports(Parent(q), state);
        var resolved := Lookup(exports, Child(q));
        if resolved == None && Parent(q) in state.loading && !ModuleOrPackage(p, q) {
          state.failed := state.failed + {Parent(q)};
        }
        if q in state.uncertain || Parent(q) in state.failed || (resolved == None && Parent(q) in p.wildcards) {
          resolved := Some(Uncertain);
        }
        if resolved.Some? && resolved.value.Known? {
          return resolved.value.binding;
        }
        if resolved == Some(Uncertain) || (IsInternal(p, q) && !ModuleOrPackage(p, q)) {
          return Binding(q, Unresolved);
        }
        return if ModuleOrPackage(p, q) then Binding(q, Module) else Binding(q, External);
      }
      if ModuleOrPackage(p, q) {
        return Binding(q, Module);
      }
      if q in p.qualified {
        return Binding(q, p.qualified[q].category);
      }
      return if IsInternal(p, q) then Binding(q, Unresolved) else Binding(q, External);
    }
  }

  lemma RunStep(p: Program, st: State, m: Name, events: seq<Event>, inherited: set<Name>)
    requires Valid(p, st) && m in st.modules && events != []
    ensures Run(p, st, m, events, inherited) ==
            Run(p, Replay(p, st, m, events[0], inherited), m, events[1..], inherited)
  {
    hide Replay;
  }

  lemma RunNothing(p: Program, st: State, m: Name, events: seq<Event>, inherited: set<Name>)
    requires Valid(p, st) && m in st.modules && events == []
    ensures Run(p, st, m, events, inherited) == st
  {
  }

  lemma StillSmaller(p: Program, before: State, entered: State, now: State)
    requires Extends(p, entered, now) && Unloaded(p, entered) < Unloaded(p, before)
    ensures Unloaded(p, now) < Unloaded(p, before)
  {
  }

  lemma ExtendsFurther(p: Program, a: State, b: State, c: State)
    requires Extends(p, a, b) && Extends(p, b, c)
    ensures Extends(p, a, c)
  {
  }

  lemma OneExtends(p: Program, st: State, n: Name)
    requires Valid(p, st)
    ensures Valid(p, ImportOne(p, st, n)) && Unloaded(p, ImportOne(p, st, n)) <= Unloaded(p, st)
  {
    hide ImportOne;
  }

  lemma PrefixStep(p: Program, st: State, n: Name, k: nat)
    requires Valid(p, st) && 1 <= k <= |n| + 1
    ensures ImportPrefixes(p, st, n, k) == if k > |n| then st else ImportPrefixes(p, ImportOne(p, st, n[..k]), n, k + 1)
  {
    hide ImportOne;
  }
}
