/** What a program entry executes: the analyzer's entry set, and the host's view of it. */
module EntrySet {
  import opened Wrappers
  import opened Reachability
  import opened TextOrder
  import opened GraphSnapshots
  import opened GraphSearch

  /** The analyzer's graph at the end of the analysis; edges in insertion order, contexts in any. */
  datatype Graph = Graph(nodes: map<Id, Node>, edges: seq<Edge>, importContexts: map<Id, seq<Id>>)

  ghost predicate Known(g: Graph) {
    && (forall id :: id in g.nodes ==> g.nodes[id].id == id)
    && (forall e :: e in g.edges ==> e.source in g.nodes && e.target in g.nodes)
    && (forall owner, id :: owner in g.importContexts && id in g.importContexts[owner] ==> id in g.nodes)
  }

  /** Importing anything from a file runs the file's module and the initialisers of its packages. */
  function Initializers(path: string): set<string> {
    {path} + set i | 0 < i < |path| && path[i] == '/' :: path[..i] + "/__init__.py"
  }

  ghost predicate IsModuleOf(g: Graph, modules: map<string, Id>, path: string, id: Id) {
    path in modules && modules[path] == id && id in g.nodes && g.nodes[id].kind == "module" && g.nodes[id].path == Some(path)
  }

  /** One step of execution: an import context, an edge other than containment, or an initialiser. */
  ghost predicate IsStep(g: Graph, modules: map<string, Id>, a: Id, b: Id) {
    || (a in g.importContexts && b in g.importContexts[a])
    || (exists e :: e in g.edges && e.kind != "contains" && e.source == a && e.target == b)
    || (a in g.nodes && g.nodes[a].path.Some? && exists p :: p in Initializers(g.nodes[a].path.value) && p in modules && modules[p] == b)
  }

  ghost function Steps(g: Graph, modules: map<string, Id>): Arcs {
    set a, b | a in g.nodes && b in g.nodes && IsStep(g, modules, a, b) :: (a, b)
  }

  /** From a node to the one container the analyzer remembers for it. */
  ghost function Up(parents: map<Id, Id>): Arcs {
    set id | id in parents :: (id, parents[id])
  }

  ghost predicate AcyclicUp(parents: map<Id, Id>) {
    forall id :: id in parents ==> !Reaches(Up(parents), parents[id], id)
  }

  /** The last containment edge of a node decides. */
  function Parents(edges: seq<Edge>): map<Id, Id> {
    if edges == [] then map[]
    else
      var last, front := edges[|edges| - 1], Parents(edges[..|edges| - 1]);
      if last.kind == "contains" then front[last.target := last.source] else front
  }

  /** The j-th edge is the last containment edge of id. */
  ghost predicate ContainedAt(edges: seq<Edge>, id: Id, j: int) {
    && 0 <= j < |edges| && edges[j].kind == "contains" && edges[j].target == id
    && forall k :: j < k < |edges| ==> !(edges[k].kind == "contains" && edges[k].target == id)
  }

  lemma {:induction false} ParentsMean(edges: seq<Edge>, id: Id)
    ensures id in Parents(edges) <==> exists j :: ContainedAt(edges, id, j)
    ensures forall j :: ContainedAt(edges, id, j) ==> Parents(edges)[id] == edges[j].source
  {
    if edges != [] {
      var n, front := |edges| - 1, edges[..|edges| - 1];
      ParentsMean(front, id);
      if edges[n].kind == "contains" && edges[n].target == id {
        assert ContainedAt(edges, id, n);
      } else {
        assert forall j :: ContainedAt(edges, id, j) <==> ContainedAt(front, id, j);
      }
    }
  }

  ghost predicate IsDirectoryOf(dir: string, path: string) {
    dir != "" && dir < path && path[|dir|] == '/'
  }

  lemma DirectoryMeans(dir: string, path: string)
    ensures IsDirectoryOf(dir, path) <==> 0 < |dir| < |path| && dir == path[..|dir|] && path[|dir|] == '/'
  {
  }

  /** Besides the file itself, the initialisers are those of all directories around it, however far up. */
  lemma InitializersMean(path: string, p: string)
    ensures p in Initializers(path) <==> p == path || exists dir :: IsDirectoryOf(dir, path) && p == dir + "/__init__.py"
  {
    hide IsDirectoryOf;
    if i :| 0 < i < |path| && path[i] == '/' && p == path[..i] + "/__init__.py" {
      DirectoryMeans(path[..i], path);
    }
    if dir :| IsDirectoryOf(dir, path) && p == dir + "/__init__.py" {
      DirectoryMeans(dir, path);
    }
  }

  /** A member of the entry set: something that is executed, or a container around it. */
  ghost predicate InEntrySet(steps: Arcs, up: Arcs, entry: Id, x: Id) {
    exists y :: Reaches(steps, entry, y) && Reaches(up, y, x)
  }

  // ---------- the analyzer ----------

  method Modules(g: Graph) returns (modules: map<string, Id>)
    requires Known(g)
    ensures forall path :: path in modules ==> IsModuleOf(g, modules, path, modules[path])
    ensures forall id :: id in g.nodes && g.nodes[id].kind == "module" && g.nodes[id].path.Some? ==> g.nodes[id].path.value in modules
  {
    modules := map[];
    var pending := g.nodes.Keys;
    while pending != {}
      invariant pending <= g.nodes.Keys
      invariant forall path :: path in modules ==> IsModuleOf(g, modules, path, modules[path])
      invariant forall id :: id in g.nodes && id !in pending && g.nodes[id].kind == "module" && g.nodes[id].path.Some? ==>
                  g.nodes[id].path.value in modules
    {
      var id :| id in pending;
      pending := pending - {id};
      if g.nodes[id].kind == "module" && g.nodes[id].path.Some? {
        modules := modules[g.nodes[id].path.value := id];
      }
    }
  }

  /** Everything one step away. */
  method Targets(g: Graph, modules: map<string, Id>, current: Id) returns (targets: seq<Id>)
    requires Known(g) && current in g.nodes
    requires forall path :: path in modules ==> IsModuleOf(g, modules, path, modules[path])
    ensures forall b :: b in targets <==> (current, b) in Steps(g, modules)
  {
    targets := if current in g.importContexts then g.importContexts[current] else [];
    ghost var contexts := targets;
    for i := 0 to |g.edges|
      invariant forall b :: b in targets <==> (b in contexts ||
                  exists j :: 0 <= j < i && g.edges[j].kind != "contains" && g.edges[j].source == current && g.edges[j].target == b)
    {
      if g.edges[i].kind != "contains" && g.edges[i].source == current {
        targets := targets + [g.edges[i].target];
      }
    }
    ghost var before := targets;
    if g.nodes[current].path.Some? {
      var paths := Initializers(g.nodes[current].path.value);
      var pending := paths;
      while pending != {}
        invariant pending <= paths
        invariant forall b :: b in targets <==> (b in before || exists p :: p in paths && p !in pending && p in modules && modules[p] == b)
      {
        var p :| p in pending;
        pending := pending - {p};
        if p in modules {
          targets := targets + [modules[p]];
        }
      }
    }
    forall b
      ensures b in targets <==> IsStep(g, modules, current, b) && b in g.nodes
    {
      if e :| e in g.edges && e.kind != "contains" && e.source == current && e.target == b {
        var j :| 0 <= j < |g.edges| && g.edges[j] == e;
        assert b in before;
      }
    }
  }

  /** Everything seen is reachable, everything pending is seen, and what is seen and not pending has
      had its steps taken. */
  ghost predicate Exploring(steps: Arcs, entry: Id, seen: set<Id>, pending: seq<Id>) {
    && entry in seen && (forall x :: x in pending ==> x in seen)
    && (forall x :: x in seen ==> Reaches(steps, entry, x))
    && forall a, b :: a in seen && a !in pending && (a, b) in steps ==> b in seen
  }

  lemma ExploringStarts(steps: Arcs, entry: Id)
    ensures Exploring(steps, entry, {entry}, [entry])
  {
    ReachesSelf(steps, entry);
  }

  lemma ExploringOnce(steps: Arcs, entry: Id, seen0: set<Id>, pending0: seq<Id>, current: Id, seen: set<Id>, pending: seq<Id>)
    requires Exploring(steps, entry, seen0, pending0 + [current])
    requires seen0 <= seen && pending0 <= pending && forall x :: x in pending ==> x in seen
    requires forall x :: x in seen ==> x in seen0 || (x in pending && (current, x) in steps)
    requires forall b :: (current, b) in steps ==> b in seen
    ensures Exploring(steps, entry, seen, pending)
  {
    assert current in pending0 + [current];
    forall x | x in seen
      ensures Reaches(steps, entry, x)
    {
      if x !in seen0 {
        ReachesStep(steps, entry, current, x);
      }
    }
    forall a, b | a in seen && a !in pending && (a, b) in steps
      ensures b in seen
    {
      if a != current {
        assert a !in pending0 + [current];
      }
    }
  }

  lemma ExploringDone(steps: Arcs, entry: Id, seen: set<Id>)
    requires Exploring(steps, entry, seen, [])
    ensures forall x :: x in seen <==> Reaches(steps, entry, x)
  {
    forall x | Reaches(steps, entry, x)
      ensures x in seen
    {
      ClosedKeepsReachable(steps, seen, entry, x);
    }
  }

  /** Adds what is one step away and not seen yet. */
  method Visit(targets: seq<Id>, seen0: set<Id>, pending0: seq<Id>) returns (seen: set<Id>, pending: seq<Id>)
    requires forall x :: x in pending0 ==> x in seen0
    ensures seen0 <= seen && pending0 <= pending && (seen == seen0 ==> pending == pending0)
    ensures forall x :: x in pending ==> x in seen
    ensures forall x :: x in seen ==> x in seen0 || (x in pending && x in targets)
    ensures forall x :: x in targets ==> x in seen
  {
    seen, pending := seen0, pending0;
    for i := 0 to |targets|
      invariant seen0 <= seen && pending0 <= pending && (seen == seen0 ==> pending == pending0)
      invariant forall x :: x in pending ==> x in seen
      invariant forall x :: x in seen ==> x in seen0 || (x in pending && x in targets)
      invariant forall j :: 0 <= j < i ==> targets[j] in seen
    {
      if targets[i] !in seen {
        seen := seen + {targets[i]};
        pending := pending + [targets[i]];
      }
    }
  }

  /** The worklist: everything reachable from the entry. */
  method Executed(g: Graph, modules: map<string, Id>, entry: Id) returns (seen: set<Id>)
    requires Known(g) && entry in g.nodes
    requires forall path :: path in modules ==> IsModuleOf(g, modules, path, modules[path])
    ensures seen <= g.nodes.Keys
    ensures forall x :: x in seen <==> Reaches(Steps(g, modules), entry, x)
  {
    ghost var steps := Steps(g, modules);
    seen := {entry};
    var pending := [entry];
    ExploringStarts(steps, entry);
    StepsStayInside(g, modules);
    hide Exploring, Steps, IsModuleOf, Known;
    while pending != []
      invariant seen <= g.nodes.Keys && Exploring(steps, entry, seen, pending)
      decreases g.nodes.Keys - seen, |pending|
    {
      var current, rest := pending[|pending| - 1], pending[..|pending| - 1];
      assert pending == rest + [current];
      PendingIsSeen(steps, entry, seen, rest, current);
      var targets := Targets(g, modules, current);
      ghost var seen0 := seen;
      seen, pending := Visit(targets, seen, rest);
      ExploringOnce(steps, entry, seen0, rest, current, seen, pending);
    }
    ExploringDone(steps, entry, seen);
  }

  lemma PendingIsSeen(steps: Arcs, entry: Id, seen: set<Id>, rest: seq<Id>, current: Id)
    requires Exploring(steps, entry, seen, rest + [current])
    ensures current in seen && forall x :: x in rest ==> x in seen
  {
    assert current in rest + [current];
    assert forall x :: x in rest ==> x in rest + [current];
  }

  lemma StepsStayInside(g: Graph, modules: map<string, Id>)
    ensures forall a, b :: (a, b) in Steps(g, modules) ==> b in g.nodes
  {
  }

  ghost function AncestorsOf(parents: map<Id, Id>, id: Id): set<Id> {
    set x | x in parents && Reaches(Up(parents), id, x)
  }

  lemma UpStep(parents: map<Id, Id>, id: Id)
    requires id in parents && AcyclicUp(parents)
    ensures (id, parents[id]) in Up(parents)
    ensures AncestorsOf(parents, parents[id]) < AncestorsOf(parents, id)
  {
    var up := Up(parents);
    ReachesSelf(up, id);
    ReachesStep(up, id, id, parents[id]);
    forall x | x in AncestorsOf(parents, parents[id])
      ensures x in AncestorsOf(parents, id)
    {
      ReachesTransitive(up, id, parents[id], x);
    }
    assert id in AncestorsOf(parents, id) && id !in AncestorsOf(parents, parents[id]);
  }

  /** From a node there is only one way up. */
  lemma OnlyWayUp(parents: map<Id, Id>, id: Id, x: Id)
    requires Reaches(Up(parents), id, x) && x != id
    ensures id in parents && Reaches(Up(parents), parents[id], x)
  {
    var next := ReachesFirstArc(Up(parents), id, x);
    assert next == parents[id];
  }

  /** Adds the containers of a node, all the way up. */
  method AddContainers(parents: map<Id, Id>, start: Id, seen0: set<Id>) returns (seen: set<Id>)
    requires AcyclicUp(parents)
    ensures forall x :: x in seen <==> x in seen0 || (x != start && Reaches(Up(parents), start, x))
  {
    seen := seen0;
    var current := start;
    ReachesSelf(Up(parents), start);
    while current in parents
      invariant Reaches(Up(parents), start, current) && (current == start || current in seen)
      invariant forall x :: x in seen ==> x in seen0 || (x != start && Reaches(Up(parents), start, x))
      invariant forall x :: x in seen0 ==> x in seen
      invariant forall x :: x != start && Reaches(Up(parents), start, x) && x !in seen ==> x != current && Reaches(Up(parents), current, x)
      decreases AncestorsOf(parents, current)
    {
      UpStep(parents, current);
      var previous := current;
      current := parents[current];
      ReachesStep(Up(parents), start, previous, current);
      assert !Reaches(Up(parents), current, previous);
      seen := seen + {current};
      forall x | x != start && Reaches(Up(parents), start, x) && x !in seen
        ensures x != current && Reaches(Up(parents), current, x)
      {
        OnlyWayUp(parents, previous, x);
      }
    }
    forall x | x != start && Reaches(Up(parents), start, x)
      ensures x in seen
    {
      if x !in seen {
        OnlyWayUp(parents, current, x);
      }
    }
  }

  /** The analyzer's list of nodes reachable from the entry. */
  method ReachableNodes(g: Graph, entry: Option<Id>) returns (result: seq<Id>, ghost modules: map<string, Id>)
    requires Known(g) && (HasEntry(entry) ==> entry.value in g.nodes)
    requires AcyclicUp(Parents(g.edges))
    ensures Ascending(result)
    ensures !HasEntry(entry) ==> result == []
    ensures HasEntry(entry) ==>
              forall x :: x in result <==> InEntrySet(Steps(g, modules), Up(Parents(g.edges)), entry.value, x)
    ensures forall path :: path in modules ==> IsModuleOf(g, modules, path, modules[path])
    ensures HasEntry(entry) ==>
              forall id :: id in g.nodes && g.nodes[id].kind == "module" && g.nodes[id].path.Some? ==>
                             g.nodes[id].path.value in modules
    ensures HasEntry(entry) ==> entry.value in result && forall id :: id in result ==> id in g.nodes
  {
    modules := map[];
    if !HasEntry(entry) {
      return [], map[];
    }
    var modules' := Modules(g);
    modules := modules';
    var parents := Parents(g.edges);
    var executed := Executed(g, modules', entry.value);
    var seen := executed;
    var pending := executed;
    while pending != {}
      invariant pending <= executed
      invariant forall x :: x in seen <==> x in executed || exists y :: y in executed && y !in pending && Reaches(Up(parents), y, x)
    {
      var current :| current in pending;
      pending := pending - {current};
      ghost var seen0 := seen;
      seen := AddContainers(parents, current, seen);
      forall x
        ensures x in seen <==> x in executed || exists y :: y in executed && y !in pending && Reaches(Up(parents), y, x)
      {
        if x in seen && x !in seen0 {
          assert current in executed && current !in pending && Reaches(Up(parents), current, x);
        }
      }
    }
    forall x
      ensures x in seen <==> InEntrySet(Steps(g, modules), Up(parents), entry.value, x)
    {
      ReachesSelf(Up(parents), x);
    }
    ParentsKnown(g.edges, g.nodes.Keys);
    forall x | x in seen
      ensures x in g.nodes
    {
      var y :| y in executed && Reaches(Up(parents), y, x);
      ClosedKeepsReachable(Up(parents), g.nodes.Keys, y, x);
    }
    ReachesSelf(Steps(g, modules), entry.value);
    result := SortIds(seen);
  }

  lemma {:induction false} ParentsKnown(edges: seq<Edge>, ids: set<Id>)
    requires forall e :: e in edges ==> e.source in ids
    ensures forall id :: id in Parents(edges) ==> Parents(edges)[id] in ids
  {
    if edges != [] {
      ParentsKnown(edges[..|edges| - 1], ids);
      assert edges[|edges| - 1] in edges;
    }
  }

  /** The entry set is the least set that contains the entry, everything executed from its members
      that are executed themselves, and every container. */
  lemma EntrySetIsLeast(steps: Arcs, up: Arcs, entry: Id, executed: set<Id>, s: set<Id>)
    requires entry in executed && Closed(steps, executed) && executed <= s && Closed(up, s)
    ensures forall x :: InEntrySet(steps, up, entry, x) ==> x in s
  {
    forall x | InEntrySet(steps, up, entry, x)
      ensures x in s
    {
      var y :| Reaches(steps, entry, y) && Reaches(up, y, x);
      ClosedKeepsReachable(steps, executed, entry, y);
      ClosedKeepsReachable(up, s, y, x);
    }
  }

  // ---------- the host ----------

  /** From a node to each of its containers. */
  ghost function Containers(s: Snapshot): Arcs {
    set e | e in s.edges && s.edges[e].kind == "contains" :: (s.edges[e].target, s.edges[e].source)
  }

  /** A node of the entry view: reachable, or a container of something reachable. */
  ghost predicate InView(s: Snapshot, x: Id) {
    exists y :: y in s.project.reachable && Reaches(Containers(s), y, x)
  }

  lemma ContainerInView(s: Snapshot, child: Id, e: Id)
    requires InView(s, child) && e in s.edges && s.edges[e].kind == "contains" && s.edges[e].target == child
    ensures InView(s, s.edges[e].source)
  {
    var y :| y in s.project.reachable && Reaches(Containers(s), y, child);
    ReachesStep(Containers(s), y, child, s.edges[e].source);
  }

  /** The containers of every selected node that is not queued any more are selected too. */
  ghost predicate Drained(s: Snapshot, selected: set<Id>, pending: seq<Id>) {
    forall e :: e in s.edges && s.edges[e].kind == "contains" && s.edges[e].target in selected && s.edges[e].target !in pending
      ==> s.edges[e].source in selected
  }

  lemma DrainOne(s: Snapshot, selected: set<Id>, pending: seq<Id>, selected': set<Id>, pending': seq<Id>)
    requires pending != [] && Drained(s, selected, pending) && selected <= selected' && pending[1..] <= pending'
    requires forall x :: x in selected' ==> x in selected || x in pending'
    requires forall e :: e in s.edges && s.edges[e].kind == "contains" && s.edges[e].target == pending[0] ==> s.edges[e].source in selected'
    ensures Drained(s, selected', pending')
  {
    assert forall x :: x in pending ==> x == pending[0] || x in pending[1..];
  }

  lemma ViewIsClosure(s: Snapshot, selected: set<Id>)
    requires forall x :: x in s.project.reachable ==> x in selected
    requires Drained(s, selected, [])
    ensures forall x :: InView(s, x) ==> x in selected
  {
    assert Closed(Containers(s), selected);
    forall x | InView(s, x)
      ensures x in selected
    {
      var y :| y in s.project.reachable && Reaches(Containers(s), y, x);
      ClosedKeepsReachable(Containers(s), selected, y, x);
    }
  }

  lemma ReachableInView(s: Snapshot)
    ensures forall x :: x in s.project.reachable ==> InView(s, x)
  {
    forall x | x in s.project.reachable
      ensures InView(s, x)
    {
      ReachesSelf(Containers(s), x);
    }
  }

  /** Selects the containers of one node that are not selected yet, and queues them. */
  method SelectContainers(s: Snapshot, child: Id, selected0: set<Id>, pending0: seq<Id>)
    returns (selected: set<Id>, pending: seq<Id>)
    requires Valid(s) && InView(s, child) && selected0 <= s.nodes.Keys
    requires forall x :: x in pending0 ==> x in selected0
    ensures selected0 <= selected <= s.nodes.Keys && pending0 <= pending
    ensures selected == selected0 ==> pending == pending0
    ensures forall x :: x in pending ==> x in selected
    ensures forall x :: x in selected ==> x in selected0 || (x in pending && InView(s, x))
    ensures forall e :: e in s.edges && s.edges[e].kind == "contains" && s.edges[e].target == child ==> s.edges[e].source in selected
  {
    selected, pending := selected0, pending0;
    var edgeIds := Get(s.incoming, child);
    var left := edgeIds;
    while left != {}
      invariant left <= edgeIds
      invariant selected0 <= selected <= s.nodes.Keys && pending0 <= pending
      invariant selected == selected0 ==> pending == pending0
      invariant forall x :: x in pending ==> x in selected
      invariant forall x :: x in selected ==> x in selected0 || (x in pending && InView(s, x))
      invariant forall e :: e in edgeIds && e !in left && s.edges[e].kind == "contains" ==> s.edges[e].source in selected
    {
      var e :| e in left;
      left := left - {e};
      var edge := s.edges[e];
      if edge.kind == "contains" && edge.source !in selected {
        ContainerInView(s, child, e);
        selected := selected + {edge.source};
        pending := pending + [edge.source];
      }
    }
  }

  /** Selected so far: in the view, with everything queued, and drained of what is queued no more. */
  ghost predicate Selecting(s: Snapshot, selected: set<Id>, pending: seq<Id>) {
    && selected <= s.nodes.Keys && (forall x :: x in s.project.reachable ==> x in selected)
    && (forall x :: x in pending ==> x in selected) && (forall x :: x in selected ==> InView(s, x))
    && Drained(s, selected, pending)
  }

  lemma AllQueued(s: Snapshot, selected: set<Id>, pending: seq<Id>)
    requires selected <= s.nodes.Keys && pending == s.project.reachable
    requires forall x :: x in selected <==> x in pending
    requires forall x :: x in selected ==> InView(s, x)
    ensures Selecting(s, selected, pending)
  {
    hide InView;
  }

  lemma HeadInView(s: Snapshot, selected: set<Id>, head: Id, rest: seq<Id>)
    requires Selecting(s, selected, [head] + rest)
    ensures InView(s, head) && forall x :: x in rest ==> x in selected
  {
    hide InView, Drained;
    assert head in [head] + rest && forall x :: x in rest ==> x in [head] + rest;
  }

  lemma SelectStep(s: Snapshot, selected: set<Id>, head: Id, rest: seq<Id>, selected': set<Id>, pending': seq<Id>)
    requires Selecting(s, selected, [head] + rest) && selected <= selected' <= s.nodes.Keys && rest <= pending'
    requires forall x :: x in pending' ==> x in selected'
    requires forall x :: x in selected' ==> x in selected || (x in pending' && InView(s, x))
    requires forall e :: e in s.edges && s.edges[e].kind == "contains" && s.edges[e].target == head ==> s.edges[e].source in selected'
    ensures Selecting(s, selected', pending')
  {
    hide InView, Drained;
    assert ([head] + rest)[1..] == rest;
    DrainOne(s, selected, [head] + rest, selected', pending');
  }

  /** The reachable nodes of the project and all their containers. */
  method EntryNodes(s: Snapshot) returns (selected: set<Id>)
    requires Valid(s) && forall id :: id in s.project.reachable ==> id in s.nodes
    ensures selected <= s.nodes.Keys
    ensures forall x :: x in selected <==> InView(s, x)
  {
    hide *;
    selected := set id | id in s.project.reachable;
    var pending := s.project.reachable;
    ReachableInView(s);
    AllQueued(s, selected, pending);
    while pending != []
      invariant selected <= s.nodes.Keys && Selecting(s, selected, pending)
      decreases s.nodes.Keys - selected, |pending|
    {
      ghost var selected0 := selected;
      var head, rest := pending[0], pending[1..];
      assert pending == [head] + rest;
      HeadInView(s, selected, head, rest);
      selected, pending := SelectContainers(s, head, selected, rest);
      SelectStep(s, selected0, head, rest, selected, pending);
    }
    SelectedIsView(s, selected);
  }

  lemma SelectedIsView(s: Snapshot, selected: set<Id>)
    requires Selecting(s, selected, [])
    ensures forall x :: x in selected <==> InView(s, x)
  {
    hide InView, Drained;
    ViewIsClosure(s, selected);
  }

  datatype View = View(nodes: seq<Node>, edges: seq<Edge>)

  /** The named view: its nodes and the edges between them, both by ascending id. */
  method ViewOf(s: Snapshot, name: string) returns (r: Result<View>, ghost selected: set<Id>)
    requires Valid(s) && forall id :: id in s.project.reachable ==> id in s.nodes
    ensures r.Ok? <==> name == "repository" || name == "entry"
    ensures name == "repository" ==> selected == s.nodes.Keys
    ensures name == "entry" ==>
              forall x :: x in selected <==> InView(s, x)
    ensures r.Ok? ==> Ascending(NodeIds(r.value.nodes)) && Lists(NodeIds(r.value.nodes), selected)
    ensures r.Ok? ==> forall n :: n in r.value.nodes ==> n.id in s.nodes && s.nodes[n.id] == n
    ensures r.Ok? ==> EdgesBetween(s, {}, NodeIds(r.value.nodes), r.value.edges)
  {
    if name != "repository" && name != "entry" {
      return Err("view must be repository or entry"), {};
    }
    var chosen := s.nodes.Keys;
    if name == "entry" {
      chosen := EntryNodes(s);
    }
    selected := chosen;
    var nodeIds := SortIds(chosen);
    var nodes := LookUp(s, nodeIds);
    var edges := SelectEdges(s, chosen, {}, nodeIds);
    r := Ok(View(nodes, edges));
  }

  /** The host adds nothing to a set of nodes exactly when it already has all containers of its members. */
  lemma ViewAddsNothingIff(s: Snapshot, members: set<Id>)
    ensures (forall x :: (exists y :: y in members && Reaches(Containers(s), y, x)) <==> x in members)
       <==> Closed(Containers(s), members)
  {
    var up := Containers(s);
    if Closed(up, members) {
      forall x
        ensures (exists y :: y in members && Reaches(up, y, x)) <==> x in members
      {
        ReachesSelf(up, x);
        if y :| y in members && Reaches(up, y, x) {
          ClosedKeepsReachable(up, members, y, x);
        }
      }
    }
    if forall x :: (exists y :: y in members && Reaches(up, y, x)) <==> x in members {
      forall arc | arc in up && arc.0 in members
        ensures arc.1 in members
      {
        ReachesSelf(up, arc.0);
        ReachesStep(up, arc.0, arc.0, arc.1);
      }
    }
  }

  ghost predicate OneContainer(edges: seq<Edge>) {
    forall e, f :: e in edges && f in edges && e.kind == "contains" && f.kind == "contains" && e.target == f.target ==> e.source == f.source
  }

  /** When no node has two containers, the host's view of the analyzer's entry set is that set. */
  lemma EntryViewIsEntrySet(s: Snapshot, g: Graph, steps: Arcs, entry: Id, members: set<Id>)
    requires Valid(s) && OneContainer(g.edges)
    requires forall e :: e in g.edges ==> e.id in s.edges && s.edges[e.id] == e
    requires forall id :: id in s.edges ==> s.edges[id] in g.edges
    requires forall x :: x in members <==> InEntrySet(steps, Up(Parents(g.edges)), entry, x)
    ensures Closed(Containers(s), members)
    ensures forall x :: (exists y :: y in members && Reaches(Containers(s), y, x)) <==> x in members
  {
    var up := Up(Parents(g.edges));
    forall arc | arc in Containers(s) && arc.0 in members
      ensures arc.1 in members
    {
      var e :| e in s.edges && s.edges[e].kind == "contains" && (s.edges[e].target, s.edges[e].source) == arc;
      ParentsOfOneContainer(g.edges, s.edges[e]);
      assert arc in up;
      var y :| Reaches(steps, entry, y) && Reaches(up, y, arc.0);
      ReachesStep(up, y, arc.0, arc.1);
      assert InEntrySet(steps, up, entry, arc.1);
    }
    ViewAddsNothingIff(s, members);
  }

  lemma {:induction false} ParentsOfOneContainer(edges: seq<Edge>, e: Edge)
    requires OneContainer(edges) && e in edges && e.kind == "contains"
    ensures e.target in Parents(edges) && Parents(edges)[e.target] == e.source
  {
    var last, front := edges[|edges| - 1], edges[..|edges| - 1];
    assert last in edges && forall f :: f in front ==> f in edges;
    if last.kind == "contains" && last.target == e.target {
    } else {
      assert e in front;
      ParentsOfOneContainer(front, e);
    }
  }
}
