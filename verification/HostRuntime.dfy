/** The host's state across generations: what it serves while it indexes, and when it reindexes. */
module HostRuntime {
  import opened Wrappers
  import opened GraphSnapshots
  import opened GenerationMerge

  /** The part of the local configuration that the command approval looks at. */
  datatype Config = Config(root: string, startArgv: seq<string>, startManual: bool)

  const EMPTY_GRAPH := Snapshot(Project("", [], None, []), map[], map[], [], map[], map[], {})

  /** What a request sees of the host at one moment. */
  datatype StateView = StateView(config: Config, indexState: string, lastError: string, generation: nat)

  function AfterStarted(v: StateView): StateView {
    v.(indexState := "indexing", lastError := "")
  }

  function AfterSucceeded(v: StateView, config: Config): StateView {
    StateView(config, "ready", "", v.generation + 1)
  }

  function AfterFailed(v: StateView, message: string): StateView {
    v.(indexState := if v.generation > 0 then "ready" else "error", lastError := message)
  }

  class HostState {
    var config: Config
    var graph: Snapshot
    var indexState: string
    var lastError: string
    var generation: nat
    /** The generations accepted so far, as the analyzer delivered them. */
    ghost var accepted: seq<Snapshot>

    ghost function View(): StateView
      reads this
    {
      StateView(config, indexState, lastError, generation)
    }

    /** The graph is what the run of accepted generations adds up to. */
    ghost predicate Consistent()
      reads this
    {
      && generation == |accepted| && Valid(graph)
      && (accepted != [] ==>
            && graph.nodes == HostNodes(accepted) && graph.edges == HostEdges(accepted)
            && Members(graph.project.reachable) == HostReachable(accepted))
    }

    constructor (config: Config)
      ensures Consistent() && accepted == [] && View() == StateView(config, "empty", "", 0)
    {
      this.config, graph, indexState, lastError, generation := config, EMPTY_GRAPH, "empty", "", 0;
      accepted := [];
    }

    method IndexingStarted()
      modifies this`indexState, this`lastError
      ensures View() == AfterStarted(old(View()))
    {
      indexState := "indexing";
      lastError := "";
    }

    method IndexingSucceeded(config: Config, graph: Snapshot, ghost delivered: Snapshot)
      modifies this
      ensures View() == AfterSucceeded(old(View()), config)
      ensures this.graph == graph && accepted == old(accepted) + [delivered]
    {
      this.config := config;
      this.graph := graph;
      generation := generation + 1;
      indexState := "ready";
      lastError := "";
      accepted := accepted + [delivered];
    }

    method IndexingFailed(message: string)
      modifies this`indexState, this`lastError
      ensures View() == AfterFailed(old(View()), message)
    {
      indexState := if generation > 0 then "ready" else "error";
      lastError := message;
    }
  }

  lemma NothingStale(current: Snapshot, last: Nodes, lastEdges: Edges)
    requires ErrorsOf(current) == {}
    ensures MergedNodes(current.nodes, last, ErrorsOf(current)) == current.nodes
    ensures MergedEdges(current.nodes, current.edges, last, lastEdges, ErrorsOf(current)) == current.edges
  {
    assert StaleNodes(last, {}) == map[];
  }

  /** One more generation, merged or taken as it is, continues the run. */
  lemma RunGrows(gens: seq<Snapshot>, before: Snapshot, current: Snapshot, merged: Snapshot)
    requires gens != [] && before.nodes == HostNodes(gens) && before.edges == HostEdges(gens)
    requires Members(before.project.reachable) == HostReachable(gens)
    requires if ErrorsOf(current) == {} then merged == current else IsMerge(merged, current, before)
    ensures merged.nodes == HostNodes(gens + [current]) && merged.edges == HostEdges(gens + [current])
    ensures Members(merged.project.reachable) == HostReachable(gens + [current])
  {
    var gens' := gens + [current];
    assert gens'[..|gens'| - 1] == gens;
    if ErrorsOf(current) == {} {
      NothingStale(current, HostNodes(gens), HostEdges(gens));
    }
  }

  /** The analyzer process that is running, if any, and whether a change arrived in the meantime. */
  class AnalyzerRunner {
    const state: HostState
    var running: bool
    var dirty: bool

    constructor (state: HostState)
      ensures this.state == state && !running && !dirty
    {
      this.state := state;
      running, dirty := false, false;
    }

    /** Takes the result of an analyzer run: a usable one becomes the next generation, merged with
        the current one if some files did not parse; anything else leaves the graph alone. */
    method AcceptResult(failure: string, config: Result<Config>, output: Result<Snapshot>) returns (success: bool)
      requires state.Consistent() && (output.Ok? ==> Valid(output.value))
      modifies state
      ensures state.Consistent()
      ensures success <==> failure == "" && config.Ok? && output.Ok?
      ensures success ==> state.accepted == old(state.accepted) + [output.value]
      ensures success ==> state.View() == AfterSucceeded(old(state.View()), config.value)
      ensures !success ==> state.accepted == old(state.accepted) && state.graph == old(state.graph)
      ensures !success ==> state.View() == AfterFailed(old(state.View()),
                if failure != "" then failure else if config.Err? then config.message else output.message)
    {
      if failure != "" {
        state.IndexingFailed(failure);
        return false;
      }
      if config.Err? {
        state.IndexingFailed(config.message);
        return false;
      }
      if output.Err? {
        state.IndexingFailed(output.message);
        return false;
      }
      var graph := output.value;
      if state.generation > 0 && ParseErrorPaths(graph.diagnostics) != {} {
        graph := PreservingParseErrorsFrom(graph, state.graph);
      }
      if state.generation > 0 {
        RunGrows(state.accepted, state.graph, output.value, graph);
      } else {
        assert state.accepted + [output.value] == [output.value];
      }
      state.IndexingSucceeded(config.value, graph, output.value);
      return true;
    }

    /** A change asks for a new run; while one is in progress it is only noted. */
    method RequestReindex() returns (started: bool)
      modifies this, state`indexState, state`lastError
      ensures Runner(running, dirty) == RunnerStep(Runner(old(running), old(dirty)), Requested).0
      ensures started == RunnerStep(Runner(old(running), old(dirty)), Requested).1
      ensures state.View() == if started then AfterStarted(old(state.View())) else old(state.View())
    {
      if running {
        dirty := true;
        return false;
      }
      state.IndexingStarted();
      running := true;
      return true;
    }

    /** The process has ended and its result has been taken; a noted change starts the next run. */
    method Finished(shutdown: bool) returns (started: bool)
      requires running
      modifies this, state`indexState, state`lastError
      ensures Runner(running, dirty) == RunnerStep(Runner(old(running), old(dirty)), Ended(shutdown)).0
      ensures started == RunnerStep(Runner(old(running), old(dirty)), Ended(shutdown)).1
      ensures state.View() == if started then AfterStarted(old(state.View())) else old(state.View())
    {
      running := false;
      started := false;
      if dirty && !shutdown {
        dirty := false;
        state.IndexingStarted();
        running := true;
        started := true;
      }
    }
  }

  // ---------- no change is lost ----------

  datatype Runner = Runner(running: bool, dirty: bool)

  datatype RunnerEvent = Requested | Ended(shutdown: bool)

  /** The next state, and whether an analyzer run is started. */
  function RunnerStep(r: Runner, e: RunnerEvent): (Runner, bool) {
    match e
    case Requested => if r.running then (Runner(true, true), false) else (Runner(true, r.dirty), true)
    case Ended(shutdown) =>
      if !r.running then (r, false)
      else if r.dirty && !shutdown then (Runner(true, false), true)
      else (Runner(false, r.dirty), false)
  }

  function RunnerAfter(events: seq<RunnerEvent>): Runner {
    if events == [] then Runner(false, false) else RunnerStep(RunnerAfter(events[..|events| - 1]), events[|events| - 1]).0
  }

  ghost predicate StartsAt(events: seq<RunnerEvent>, i: nat)
    requires i < |events|
  {
    RunnerStep(RunnerAfter(events[..i]), events[i]).1
  }

  ghost predicate NoShutdown(events: seq<RunnerEvent>) {
    forall k :: 0 <= k < |events| ==> events[k] != Ended(true)
  }

  lemma {:induction false} NotedWhileRunning(events: seq<RunnerEvent>)
    requires NoShutdown(events)
    ensures RunnerAfter(events).dirty ==> RunnerAfter(events).running
  {
    if events != [] {
      NotedWhileRunning(events[..|events| - 1]);
    }
  }

  /** A noted request was made while a run was going on; without shutdown that run is going on still. */
  lemma {:induction false} NotedByRequest(events: seq<RunnerEvent>) returns (j: nat)
    requires RunnerAfter(events).dirty
    ensures j < |events| && events[j] == Requested && RunnerAfter(events[..j]).running
    ensures NoShutdown(events) ==> forall k :: j < k < |events| ==> !StartsAt(events, k)
  {
    var n := |events| - 1;
    var front, e := events[..n], events[n];
    if e == Requested && RunnerAfter(front).running {
      j := n;
    } else {
      j := NotedByRequest(front);
      assert front[..j] == events[..j];
      if NoShutdown(events) {
        NotedWhileRunning(front);
        assert false;
      }
    }
  }

  /** A run starts only because one was asked for: by the request itself, or by one that came during a run; without
      shutdown, during the run that has just ended. */
  lemma StartsWereRequested(events: seq<RunnerEvent>, i: nat) returns (j: nat)
    requires i < |events| && StartsAt(events, i)
    ensures j <= i && events[j] == Requested
    ensures j < i ==> RunnerAfter(events[..j]).running && events[i] == Ended(false)
    ensures NoShutdown(events) ==> forall k :: j < k < i ==> !StartsAt(events, k)
  {
    if events[i] == Requested {
      j := i;
    } else {
      var front := events[..i];
      j := NotedByRequest(front);
      assert front[..j] == events[..j];
      forall k | j < k < i && NoShutdown(events)
        ensures !StartsAt(events, k)
      {
        assert front[..k] == events[..k] && !StartsAt(front, k);
      }
    }
  }

  /** In every sequence of requests and ends without shutdown, each request is answered by a run that
      starts then or later, unless one is still going on and will be followed by another. */
  lemma {:induction false} RequestsAreAnswered(events: seq<RunnerEvent>, i: nat)
    requires i < |events| && events[i] == Requested
    requires forall k :: 0 <= k < |events| ==> events[k] != Ended(true)
    ensures || (exists j :: i <= j < |events| && StartsAt(events, j))
            || (RunnerAfter(events).running && RunnerAfter(events).dirty)
  {
    var n := |events| - 1;
    var front := events[..n];
    if i < n {
      RequestsAreAnswered(front, i);
      if j :| i <= j < n && StartsAt(front, j) {
        assert front[..j] == events[..j] && StartsAt(events, j);
      } else if RunnerStep(RunnerAfter(front), events[n]).1 {
        assert StartsAt(events, n);
      }
    } else if !RunnerAfter(front).running {
      assert StartsAt(events, n);
    }
  }
}
