/** Keeping the last good facts of files that no longer parse when a new generation arrives. */
module GenerationMerge {
  import opened Wrappers
  import opened TextOrder
  import opened GraphSnapshots
  import GraphStream

  type Nodes = map<Id, Node>
  type Edges = map<Id, Edge>

  function ParseErrorPaths(diagnostics: seq<Diagnostic>): set<string> {
    set d | d in diagnostics && d.code == "PY_SYNTAX_ERROR" && d.severity == "error" && d.path.Some? :: d.path.value
  }

  predicate OnPath(path: Option<string>, paths: set<string>) {
    path.Some? && path.value in paths
  }

  function MarkStale(n: Node): Node {
    if "stale" in n.modifiers then n else n.(modifiers := n.modifiers + ["stale"])
  }

  // ---------- the merge as an equation ----------

  ghost function KeptNodes(current: Nodes, paths: set<string>): Nodes {
    map id | id in current && !OnPath(current[id].path, paths) :: current[id]
  }

  ghost function StaleNodes(last: Nodes, paths: set<string>): Nodes {
    map id | id in last && OnPath(last[id].path, paths) :: MarkStale(last[id])
  }

  ghost function MergedNodes(current: Nodes, last: Nodes, paths: set<string>): Nodes {
    KeptNodes(current, paths) + StaleNodes(last, paths)
  }

  ghost predicate KeepsEdge(edge: Edge, current: Nodes, paths: set<string>) {
    && !OnPath(edge.path, paths)
    && !(edge.source in current && OnPath(current[edge.source].path, paths))
    && !(edge.target in current && OnPath(current[edge.target].path, paths))
  }

  ghost predicate RestoresEdge(edge: Edge, stale: set<Id>, nodes: Nodes, paths: set<string>) {
    && (OnPath(edge.path, paths) || edge.source in stale || edge.target in stale)
    && edge.source in nodes && edge.target in nodes
  }

  ghost function MergedEdges(currentNodes: Nodes, current: Edges, lastNodes: Nodes, last: Edges, paths: set<string>): Edges {
    var stale, nodes := StaleNodes(lastNodes, paths).Keys, MergedNodes(currentNodes, lastNodes, paths);
    (map e | e in current && KeepsEdge(current[e], currentNodes, paths) :: current[e]) +
    (map e | e in last && RestoresEdge(last[e], stale, nodes, paths) :: last[e])
  }

  ghost function MergedReachable(current: set<Id>, last: set<Id>, nodes: Nodes): set<Id> {
    set id | id in current + last && id in nodes
  }

  ghost function Members(ids: seq<Id>): set<Id> {
    set id | id in ids
  }

  function MergedEntry(current: Option<Id>, last: Option<Id>, nodes: Nodes): Option<Id> {
    if HasEntry(current) && current.value !in nodes then last else current
  }

  // ---------- the algorithm ----------

  method RemoveReplaced(current: Nodes, paths: set<string>) returns (nodes: Nodes, replaced: set<Id>)
    ensures nodes == KeptNodes(current, paths)
    ensures replaced == set id | id in current && OnPath(current[id].path, paths)
  {
    nodes, replaced := current, {};
    var pending := current.Keys;
    while pending != {}
      invariant pending <= current.Keys
      invariant nodes == map id | id in current && (id in pending || !OnPath(current[id].path, paths)) :: current[id]
      invariant replaced == set id | id in current && id !in pending && OnPath(current[id].path, paths)
    {
      var id :| id in pending;
      pending := pending - {id};
      if OnPath(current[id].path, paths) {
        replaced := replaced + {id};
        nodes := nodes - {id};
      }
    }
  }

  method RemoveEdges(current: Edges, paths: set<string>, replaced: set<Id>, ghost currentNodes: Nodes) returns (edges: Edges)
    requires replaced == set id | id in currentNodes && OnPath(currentNodes[id].path, paths)
    ensures edges == map e | e in current && KeepsEdge(current[e], currentNodes, paths) :: current[e]
  {
    edges := current;
    var pending := current.Keys;
    while pending != {}
      invariant pending <= current.Keys
      invariant edges == map e | e in current && (e in pending || KeepsEdge(current[e], currentNodes, paths)) :: current[e]
    {
      var e :| e in pending;
      pending := pending - {e};
      if OnPath(current[e].path, paths) || current[e].source in replaced || current[e].target in replaced {
        edges := edges - {e};
      }
    }
  }

  method InsertStale(kept: Nodes, last: Nodes, paths: set<string>) returns (nodes: Nodes, stale: set<Id>)
    requires forall id :: id in last ==> last[id].id == id
    ensures nodes == kept + StaleNodes(last, paths) && stale == StaleNodes(last, paths).Keys
  {
    hide StaleAmong, MarkStale, OnPath;
    nodes, stale := kept, {};
    var pending := last.Keys;
    StaleEnds(last, paths);
    assert last.Keys - pending == {};
    while pending != {}
      invariant pending <= last.Keys
      invariant nodes == kept + StaleAmong(last, paths, last.Keys - pending)
      invariant stale == StaleAmong(last, paths, last.Keys - pending).Keys
    {
      var id :| id in pending;
      StaleMore(last, paths, last.Keys - pending, id);
      assert last.Keys - (pending - {id}) == last.Keys - pending + {id};
      pending := pending - {id};
      var original := last[id];
      if OnPath(original.path, paths) {
        stale := stale + {original.id};
        nodes := nodes[original.id := MarkStale(original)];
      }
    }
    assert last.Keys - pending == last.Keys;
  }

  ghost function StaleAmong(last: Nodes, paths: set<string>, done: set<Id>): Nodes {
    map id | id in last && id in done && OnPath(last[id].path, paths) :: MarkStale(last[id])
  }

  lemma StaleMore(last: Nodes, paths: set<string>, done: set<Id>, id: Id)
    requires id in last && id !in done
    ensures var before := StaleAmong(last, paths, done);
            StaleAmong(last, paths, done + {id}) ==
            if OnPath(last[id].path, paths) then before[id := MarkStale(last[id])] else before
  {
  }

  lemma StaleEnds(last: Nodes, paths: set<string>)
    ensures StaleAmong(last, paths, {}) == map[]
    ensures StaleAmong(last, paths, last.Keys) == StaleNodes(last, paths)
  {
  }

  ghost function RestoredAmong(last: Edges, paths: set<string>, stale: set<Id>, nodes: Nodes, done: set<Id>): Edges {
    map e | e in last && e in done && RestoresEdge(last[e], stale, nodes, paths) :: last[e]
  }

  lemma RestoredMore(last: Edges, paths: set<string>, stale: set<Id>, nodes: Nodes, done: set<Id>, e: Id)
    requires e in last && e !in done
    ensures var before := RestoredAmong(last, paths, stale, nodes, done);
            RestoredAmong(last, paths, stale, nodes, done + {e}) ==
            if RestoresEdge(last[e], stale, nodes, paths) then before[e := last[e]] else before
  {
    hide RestoresEdge;
  }

  lemma InsertLast(kept: Edges, before: Edges, e: Id, edge: Edge)
    ensures (kept + before)[e := edge] == kept + before[e := edge]
  {
  }

  method InsertEdges(kept: Edges, last: Edges, paths: set<string>, stale: set<Id>, nodes: Nodes) returns (edges: Edges)
    requires forall e :: e in last ==> last[e].id == e
    ensures edges == kept + map e | e in last && RestoresEdge(last[e], stale, nodes, paths) :: last[e]
  {
    edges := kept;
    var pending := last.Keys;
    assert RestoredAmong(last, paths, stale, nodes, {}) == map[];
    while pending != {}
      invariant pending <= last.Keys
      invariant edges == kept + RestoredAmong(last, paths, stale, nodes, last.Keys - pending)
    {
      hide RestoredAmong, OnPath;
      ghost var before := RestoredAmong(last, paths, stale, nodes, last.Keys - pending);
      var e :| e in pending;
      RestoredMore(last, paths, stale, nodes, last.Keys - pending, e);
      assert last.Keys - pending + {e} == last.Keys - (pending - {e});
      pending := pending - {e};
      var edge := last[e];
      if (OnPath(edge.path, paths) || edge.source in stale || edge.target in stale) && edge.source in nodes && edge.target in nodes {
        InsertLast(kept, before, e, edge);
        edges := edges[edge.id := edge];
      }
    }
    assert RestoredAmong(last, paths, stale, nodes, last.Keys) ==
           map e | e in last && RestoresEdge(last[e], stale, nodes, paths) :: last[e];
  }

  method UniteReachable(current: seq<Id>, last: seq<Id>, nodes: Nodes) returns (reachable: seq<Id>)
    ensures Ascending(reachable)
    ensures Lists(reachable, MergedReachable(Members(current), Members(last), nodes))
  {
    var ids: set<Id> := {};
    for i := 0 to |current|
      invariant ids == set id | id in current[..i] && id in nodes
    {
      assert current[..i + 1] == current[..i] + [current[i]];
      if current[i] in nodes {
        ids := ids + {current[i]};
      }
    }
    assert current[..|current|] == current;
    ghost var before := ids;
    for i := 0 to |last|
      invariant ids == before + set id | id in last[..i] && id in nodes
    {
      assert last[..i + 1] == last[..i] + [last[i]];
      if last[i] in nodes {
        ids := ids + {last[i]};
      }
    }
    assert last[..|last|] == last;
    assert ids == MergedReachable(Members(current), Members(last), nodes);
    reachable := SortIds(ids);
  }

  /** The merge never leaves an edge without its ends, so rebuilding the indexes cannot fail. */
  lemma MergedNoDangling(currentNodes: Nodes, current: Edges, lastNodes: Nodes, last: Edges, paths: set<string>)
    requires NoDangling(currentNodes, current)
    ensures NoDangling(MergedNodes(currentNodes, lastNodes, paths), MergedEdges(currentNodes, current, lastNodes, last, paths))
  {
  }

  lemma MergedOwnIds(current: Snapshot, last: Snapshot, paths: set<string>)
    requires OwnIds(current.nodes, current.edges) && OwnIds(last.nodes, last.edges)
    ensures OwnIds(MergedNodes(current.nodes, last.nodes, paths), MergedEdges(current.nodes, current.edges, last.nodes, last.edges, paths))
  {
  }

  /** What the merged generation consists of. */
  ghost predicate IsMerge(merged: Snapshot, current: Snapshot, last: Snapshot) {
    var paths := ParseErrorPaths(current.diagnostics);
    && merged.nodes == MergedNodes(current.nodes, last.nodes, paths)
    && merged.edges == MergedEdges(current.nodes, current.edges, last.nodes, last.edges, paths)
    && merged.diagnostics == current.diagnostics
    && merged.project == current.project.(entryNodeId := merged.project.entryNodeId, reachable := merged.project.reachable)
    && merged.project.entryNodeId == MergedEntry(current.project.entryNodeId, last.project.entryNodeId, merged.nodes)
    && Ascending(merged.project.reachable)
    && Lists(merged.project.reachable,
             MergedReachable(Members(current.project.reachable), Members(last.project.reachable), merged.nodes))
  }

  method PreservingParseErrorsFrom(current: Snapshot, lastGood: Snapshot) returns (merged: Snapshot)
    requires Valid(current) && OwnIds(lastGood.nodes, lastGood.edges)
    ensures Valid(merged)
    ensures ParseErrorPaths(current.diagnostics) == {} ==> merged == current
    ensures ParseErrorPaths(current.diagnostics) != {} ==> IsMerge(merged, current, lastGood)
  {
    var stalePaths := ParseErrorPaths(current.diagnostics);
    if stalePaths == {} {
      return current;
    }
    var kept, replaced := RemoveReplaced(current.nodes, stalePaths);
    var keptEdges := RemoveEdges(current.edges, stalePaths, replaced, current.nodes);
    var nodes, stale := InsertStale(kept, lastGood.nodes, stalePaths);
    var edges := InsertEdges(keptEdges, lastGood.edges, stalePaths, stale, nodes);
    MergedNoDangling(current.nodes, current.edges, lastGood.nodes, lastGood.edges, stalePaths);
    MergedOwnIds(current, lastGood, stalePaths);
    var reachable := UniteReachable(current.project.reachable, lastGood.project.reachable, nodes);
    var entry := MergedEntry(current.project.entryNodeId, lastGood.project.entryNodeId, nodes);
    var project := current.project.(entryNodeId := entry, reachable := reachable);
    var rebuilt := RebuildIndexes(current.(project := project, nodes := nodes, edges := edges));
    return rebuilt.value;
  }

  // ---------- the entry ----------

  ghost predicate EntryKnown(s: Snapshot) {
    HasEntry(s.project.entryNodeId) ==> s.project.entryNodeId.value in s.nodes && s.project.entryNodeId.value in s.project.reachable
  }

  /** The node is still there after the merge: fresh in a file that parses, or kept for one that does not. */
  predicate Survives(id: Id, current: Nodes, last: Nodes, paths: set<string>) {
    || (id in current && !OnPath(current[id].path, paths))
    || (id in last && OnPath(last[id].path, paths))
  }

  /** The merged entry is a known, reachable node exactly when the fresh entry survives, or the last
      good one does or there was none. */
  lemma EntryKnownIff(merged: Snapshot, current: Snapshot, last: Snapshot)
    requires IsMerge(merged, current, last) && EntryKnown(current) && EntryKnown(last)
    ensures var paths := ParseErrorPaths(current.diagnostics);
            EntryKnown(merged) <==>
              || !HasEntry(current.project.entryNodeId)
              || Survives(current.project.entryNodeId.value, current.nodes, last.nodes, paths)
              || !HasEntry(last.project.entryNodeId)
              || Survives(last.project.entryNodeId.value, current.nodes, last.nodes, paths)
  {
  }

  function FileNode(id: Id, path: string): Node {
    Node(id, "file", None, path, path, Some(path), None, None, None, false, false, None, [])
  }

  function ProjectOf(id: Id): Project {
    Project(".", ["python"], Some(id), [id])
  }

  /** A project of one file, which is its entry: as a document, and as the host keeps it. */
  function OneFileDocument(id: Id, path: string, diagnostics: seq<Diagnostic>): GraphStream.Document {
    GraphStream.Document(ProjectOf(id), [FileNode(id, path)], [], diagnostics)
  }

  function OneFile(id: Id, path: string, diagnostics: seq<Diagnostic>): Snapshot {
    Snapshot(ProjectOf(id), map[id := FileNode(id, path)], map[], diagnostics, map[], map[], {path})
  }

  const OLD_ID := "n_000000000000000000000000"
  const NEW_ID := "n_111111111111111111111111"
  const NEW_ERROR := Diagnostic("PY_SYNTAX_ERROR", "error", "", Some("new.py"), None)

  lemma OneFileAccepted(id: Id, path: string, diagnostics: seq<Diagnostic>)
    requires GraphStream.HexId("n_", id) && GraphStream.Short(path)
    requires diagnostics == [] || diagnostics == [NEW_ERROR]
    ensures GraphStream.DocumentOk(OneFileDocument(id, path, diagnostics))
  {
    hide GraphStream.LineFits, GraphStream.HexId, GraphStream.NodeKey, GraphStream.EdgeKey, GraphStream.DiagnosticKey;
    var d, n := OneFileDocument(id, path, diagnostics), FileNode(id, path);
    IdIsShort(id);
    GraphStream.ShortNodeFits(n);
    GraphStream.ShortProjectFits(d.project);
    GraphStream.ShortDiagnosticFits(NEW_ERROR);
    GraphStream.ShortSummaryFits(d);
    assert n in d.nodes && GraphStream.IsNode(d, id);
  }

  lemma IdIsShort(id: Id)
    requires GraphStream.HexId("n_", id)
    ensures GraphStream.Short(id)
  {
  }

  lemma OneFileKept(id: Id, path: string, diagnostics: seq<Diagnostic>)
    ensures GraphStream.IsSnapshotOf(OneFile(id, path, diagnostics), OneFileDocument(id, path, diagnostics))
  {
    var s := OneFile(id, path, diagnostics);
    assert s.nodes[id].path == Some(path);
  }

  lemma HexIds()
    ensures GraphStream.HexId("n_", OLD_ID) && GraphStream.HexId("n_", NEW_ID) && OLD_ID != NEW_ID
  {
    assert OLD_ID[2] != NEW_ID[2];
  }

  /** The entry moves to a new file that does not parse, and the old entry is gone: the host reads both documents,
      and their merge names an entry it does not contain. */
  lemma EntryLost(merged: Snapshot)
    requires IsMerge(merged, OneFile(NEW_ID, "new.py", [NEW_ERROR]), OneFile(OLD_ID, "old.py", []))
    ensures GraphStream.DocumentOk(OneFileDocument(NEW_ID, "new.py", [NEW_ERROR]))
    ensures GraphStream.IsSnapshotOf(OneFile(NEW_ID, "new.py", [NEW_ERROR]), OneFileDocument(NEW_ID, "new.py", [NEW_ERROR]))
    ensures GraphStream.DocumentOk(OneFileDocument(OLD_ID, "old.py", []))
    ensures GraphStream.IsSnapshotOf(OneFile(OLD_ID, "old.py", []), OneFileDocument(OLD_ID, "old.py", []))
    ensures merged.project.entryNodeId == Some(OLD_ID) && merged.nodes == map[]
    ensures !EntryKnown(merged)
  {
    HexIds();
    hide GraphStream.DocumentOk, GraphStream.IsSnapshotOf, GraphStream.HexId;
    OneFileAccepted(NEW_ID, "new.py", [NEW_ERROR]);
    OneFileAccepted(OLD_ID, "old.py", []);
    OneFileKept(NEW_ID, "new.py", [NEW_ERROR]);
    OneFileKept(OLD_ID, "old.py", []);
    LostIn(merged, OLD_ID, NEW_ID);
  }

  lemma LostIn(merged: Snapshot, oldId: Id, newId: Id)
    requires oldId != newId && oldId != "" && newId != ""
    requires IsMerge(merged, OneFile(newId, "new.py", [NEW_ERROR]), OneFile(oldId, "old.py", []))
    ensures merged.project.entryNodeId == Some(oldId) && merged.nodes == map[]
    ensures !EntryKnown(merged)
  {
    assert NEW_ERROR in [NEW_ERROR];
    assert ParseErrorPaths([NEW_ERROR]) == {"new.py"};
    assert merged.nodes == map[];
  }

  // ---------- runs ----------

  /** One id stands for one path in all generations of a run. */
  ghost predicate IdsDeterminePaths(gens: seq<Snapshot>) {
    forall i, j, id :: 0 <= i < |gens| && 0 <= j < |gens| && id in gens[i].nodes && id in gens[j].nodes ==>
      gens[i].nodes[id].path == gens[j].nodes[id].path
  }

  ghost function ErrorsOf(s: Snapshot): set<string> {
    ParseErrorPaths(s.diagnostics)
  }

  /** The nodes the host holds after accepting the generations one after the other: the first is
      taken as it is, every later one is merged with what the host held before. */
  ghost function HostNodes(gens: seq<Snapshot>): Nodes
    requires gens != []
  {
    var last := gens[|gens| - 1];
    if |gens| == 1 then last.nodes else MergedNodes(last.nodes, HostNodes(gens[..|gens| - 1]), ErrorsOf(last))
  }

  ghost function HostEdges(gens: seq<Snapshot>): Edges
    requires gens != []
  {
    var last, before := gens[|gens| - 1], gens[..|gens| - 1];
    if |gens| == 1 then last.edges
    else MergedEdges(last.nodes, last.edges, HostNodes(before), HostEdges(before), ErrorsOf(last))
  }

  ghost function HostReachable(gens: seq<Snapshot>): set<Id>
    requires gens != []
  {
    var last, before := gens[|gens| - 1], gens[..|gens| - 1];
    if |gens| == 1 || ErrorsOf(last) == {} then Members(last.project.reachable)
    else MergedReachable(Members(last.project.reachable), HostReachable(before), HostNodes(gens))
  }

  ghost function NodesAt(nodes: Nodes, path: Option<string>): Nodes {
    map id | id in nodes && nodes[id].path == path :: nodes[id]
  }

  ghost function MarkAll(nodes: Nodes): Nodes {
    map id | id in nodes :: MarkStale(nodes[id])
  }

  /** The last generation whose facts about the file come directly from the analyzer. */
  ghost function LastDirect(gens: seq<Snapshot>, path: string): nat
    requires gens != []
    ensures LastDirect(gens, path) < |gens|
  {
    var k := |gens| - 1;
    if k == 0 || path !in ErrorsOf(gens[k]) then k else LastDirect(gens[..k], path)
  }

  lemma {:induction false} HostNodesComeFromRun(gens: seq<Snapshot>, id: Id)
    requires gens != [] && id in HostNodes(gens)
    ensures exists j :: 0 <= j < |gens| && id in gens[j].nodes && gens[j].nodes[id].path == HostNodes(gens)[id].path
  {
    var k := |gens| - 1;
    if k > 0 && id in StaleNodes(HostNodes(gens[..k]), ErrorsOf(gens[k])) {
      HostNodesComeFromRun(gens[..k], id);
      var j :| 0 <= j < k && id in gens[..k][j].nodes && gens[..k][j].nodes[id].path == HostNodes(gens[..k])[id].path;
      assert id in gens[j].nodes && gens[j].nodes[id].path == HostNodes(gens)[id].path;
    } else {
      assert id in gens[k].nodes && gens[k].nodes[id].path == HostNodes(gens)[id].path;
    }
  }

  /** Ids of earlier generations do not clash with fresh nodes of other files. */
  lemma NoClash(gens: seq<Snapshot>, id: Id)
    requires |gens| > 1 && IdsDeterminePaths(gens)
    requires id in HostNodes(gens[..|gens| - 1]) && id in gens[|gens| - 1].nodes
    ensures HostNodes(gens[..|gens| - 1])[id].path == gens[|gens| - 1].nodes[id].path
  {
    var k := |gens| - 1;
    HostNodesComeFromRun(gens[..k], id);
    var j :| 0 <= j < k && id in gens[..k][j].nodes && gens[..k][j].nodes[id].path == HostNodes(gens[..k])[id].path;
    assert id in gens[j].nodes;
  }

  lemma MergedAtFile(current: Nodes, before: Nodes, paths: set<string>, path: Option<string>)
    requires forall id :: id in before && id in current ==> before[id].path == current[id].path
    ensures NodesAt(MergedNodes(current, before, paths), path) ==
              if OnPath(path, paths) then MarkAll(NodesAt(before, path)) else NodesAt(current, path)
  {
    var merged := NodesAt(MergedNodes(current, before, paths), path);
    if OnPath(path, paths) {
      var expected := MarkAll(NodesAt(before, path));
      assert forall id :: id in merged <==> id in expected;
      assert forall id :: id in merged ==> merged[id] == expected[id];
    } else {
      var expected := NodesAt(current, path);
      assert forall id :: id in merged <==> id in expected;
      assert forall id :: id in merged ==> merged[id] == expected[id];
    }
  }

  lemma MergedAt(gens: seq<Snapshot>, path: Option<string>)
    requires |gens| > 1 && IdsDeterminePaths(gens)
    ensures var last, before := gens[|gens| - 1], HostNodes(gens[..|gens| - 1]);
            NodesAt(HostNodes(gens), path) ==
              if OnPath(path, ErrorsOf(last)) then MarkAll(NodesAt(before, path)) else NodesAt(last.nodes, path)
  {
    var last, before := gens[|gens| - 1], HostNodes(gens[..|gens| - 1]);
    forall id | id in before && id in last.nodes
      ensures before[id].path == last.nodes[id].path
    {
      NoClash(gens, id);
    }
    MergedAtFile(last.nodes, before, ErrorsOf(last), path);
  }

  lemma SingleGeneration(gens: seq<Snapshot>)
    requires |gens| == 1
    ensures HostNodes(gens) == gens[0].nodes
  {
  }

  lemma MarkedOnce(nodes: Nodes)
    ensures MarkAll(MarkAll(nodes)) == MarkAll(nodes)
  {
  }

  /** Over any run: a file that parses, and everything without a file, is current; a file that does not
      parse shows, marked stale, what the last generation taken directly from the analyzer said of it. */
  lemma {:induction false} HostNodesOverRuns(gens: seq<Snapshot>, path: Option<string>)
    requires gens != [] && IdsDeterminePaths(gens)
    ensures var last := gens[|gens| - 1];
            NodesAt(HostNodes(gens), path) ==
              if |gens| > 1 && OnPath(path, ErrorsOf(last))
              then MarkAll(NodesAt(gens[LastDirect(gens, path.value)].nodes, path))
              else NodesAt(last.nodes, path)
    decreases |gens|
  {
    hide NodesAt, HostNodes;
    var k := |gens| - 1;
    var last, before := gens[k], gens[..k];
    if k == 0 {
      SingleGeneration(gens);
    } else {
      MergedAt(gens, path);
      if OnPath(path, ErrorsOf(last)) {
        HostNodesOverRuns(before, path);
        var j := LastDirect(before, path.value);
        assert LastDirect(gens, path.value) == j && gens[j] == before[j];
        MarkedOnce(NodesAt(gens[j].nodes, path));
      }
    }
  }

  /** Over any run: no edge of the host dangles, and it holds every node it calls reachable. */
  lemma {:induction false} HostClosedOverRuns(gens: seq<Snapshot>)
    requires gens != []
    requires forall s :: s in gens ==> NoDangling(s.nodes, s.edges) && forall id :: id in s.project.reachable ==> id in s.nodes
    ensures NoDangling(HostNodes(gens), HostEdges(gens))
    ensures HostReachable(gens) <= HostNodes(gens).Keys
  {
    var k := |gens| - 1;
    var last, before := gens[k], gens[..k];
    assert last in gens;
    if k > 0 {
      MergedNoDangling(last.nodes, last.edges, HostNodes(before), HostEdges(before), ErrorsOf(last));
      if ErrorsOf(last) == {} {
        assert MergedNodes(last.nodes, HostNodes(before), {}) == last.nodes;
      }
    }
  }

  /** Each edge has one id in all generations of a run. */
  ghost predicate IdsDetermineEdges(gens: seq<Snapshot>) {
    forall i, j, id :: 0 <= i < |gens| && 0 <= j < |gens| && id in gens[i].edges && id in gens[j].edges ==>
      gens[i].edges[id] == gens[j].edges[id]
  }

  /** The edge belongs to one of the files, by its own path or by that of one of its ends. */
  ghost predicate TouchesFile(edge: Edge, nodes: Nodes, files: set<string>) {
    || OnPath(edge.path, files)
    || (edge.source in nodes && OnPath(nodes[edge.source].path, files))
    || (edge.target in nodes && OnPath(nodes[edge.target].path, files))
  }

  /** Generation k restores the edge: it belongs to a file that does not parse, and both its ends are held. */
  ghost predicate RestoredAt(gens: seq<Snapshot>, edge: Edge, k: int)
    requires 0 < k < |gens|
  {
    && TouchesFile(edge, HostNodes(gens[..k]), ErrorsOf(gens[k]))
    && edge.source in HostNodes(gens[..k + 1]) && edge.target in HostNodes(gens[..k + 1])
  }

  /** The edge came with generation j, in which it belonged to no file that did not parse unless that was the
      first, and every later generation has restored it. */
  ghost predicate KeptSince(gens: seq<Snapshot>, id: Id, j: int) {
    && 0 <= j < |gens| && id in gens[j].edges
    && (j > 0 ==> !TouchesFile(gens[j].edges[id], gens[j].nodes, ErrorsOf(gens[j])))
    && forall k :: j < k < |gens| ==> RestoredAt(gens, gens[j].edges[id], k)
  }

  /** Generation k restores the edge the host held under this id before. */
  ghost predicate RestoresHeld(gens: seq<Snapshot>, id: Id, k: int)
    requires 0 < k < |gens|
  {
    id in HostEdges(gens[..k]) && RestoredAt(gens, HostEdges(gens[..k])[id], k)
  }

  /** Likewise, and generation j restored no older edge with the same id. */
  ghost predicate HeldSince(gens: seq<Snapshot>, id: Id, j: int) {
    KeptSince(gens, id, j) && (j > 0 ==> !RestoresHeld(gens, id, j))
  }

  lemma MergedEdgeMeans(currentNodes: Nodes, current: Edges, lastNodes: Nodes, last: Edges, paths: set<string>, id: Id)
    ensures var merged, nodes := MergedEdges(currentNodes, current, lastNodes, last, paths), MergedNodes(currentNodes, lastNodes, paths);
            var restored := id in last && TouchesFile(last[id], lastNodes, paths) && last[id].source in nodes && last[id].target in nodes;
            && (id in merged <==> restored || (id in current && !TouchesFile(current[id], currentNodes, paths)))
            && (id in merged ==> merged[id] == if restored then last[id] else current[id])
  {
  }

  lemma KeptByOneMore(gens: seq<Snapshot>, id: Id, j: int)
    requires |gens| > 1 && 0 <= j < |gens| - 1
    ensures KeptSince(gens, id, j) <==>
              KeptSince(gens[..|gens| - 1], id, j) && RestoredAt(gens, gens[j].edges[id], |gens| - 1)
  {
    hide HostNodes, TouchesFile;
    var n := |gens| - 1;
    var front := gens[..n];
    assert front[j] == gens[j];
    if id in gens[j].edges {
      forall k | 0 < k < n
        ensures RestoredAt(front, gens[j].edges[id], k) == RestoredAt(gens, gens[j].edges[id], k)
      {
        assert front[..k] == gens[..k] && front[..k + 1] == gens[..k + 1] && front[k] == gens[k];
      }
    }
  }

  lemma HeldByOneMore(gens: seq<Snapshot>, id: Id, j: int)
    requires |gens| > 1 && 0 <= j < |gens| - 1
    ensures HeldSince(gens, id, j) <==>
              HeldSince(gens[..|gens| - 1], id, j) && RestoredAt(gens, gens[j].edges[id], |gens| - 1)
  {
    hide HostNodes, HostEdges, TouchesFile, KeptSince;
    KeptByOneMore(gens, id, j);
    var front := gens[..|gens| - 1];
    assert front[..j] == gens[..j] && front[..j + 1] == gens[..j + 1] && front[j] == gens[j];
  }

  lemma HeldLately(gens: seq<Snapshot>, id: Id)
    requires |gens| > 1
    ensures HeldSince(gens, id, |gens| - 1) <==> KeptSince(gens, id, |gens| - 1) && !RestoresHeld(gens, id, |gens| - 1)
    ensures forall j :: HeldSince(gens, id, j) ==> 0 <= j < |gens|
  {
    hide RestoresHeld, TouchesFile, RestoredAt;
  }

  /** Over any run: the host holds exactly the edges of the last generation that belong to no file that does not parse,
      and those of an earlier one that every generation since has restored; a restored edge comes before a fresh one with
      the same id. */
  lemma {:induction false} HostEdgesOverRuns(gens: seq<Snapshot>, id: Id)
    requires gens != []
    ensures id in HostEdges(gens) <==> exists j :: HeldSince(gens, id, j)
    ensures forall j :: HeldSince(gens, id, j) ==> HostEdges(gens)[id] == gens[j].edges[id]
    decreases |gens|
  {
    hide MergedEdges, MergedNodes, TouchesFile, HostNodes, RestoredAt;
    var n := |gens| - 1;
    var front := gens[..n];
    if n == 0 {
      assert id in gens[0].edges ==> HeldSince(gens, id, 0);
    } else {
      hide HostEdges, KeptSince, HeldSince;
      HostEdgesOverRuns(front, id);
      forall j | 0 <= j < n
        ensures HeldSince(gens, id, j) <==> HeldSince(front, id, j) && RestoredAt(gens, gens[j].edges[id], n)
      {
        HeldByOneMore(gens, id, j);
      }
      HostEdgesStep(gens, id);
      HeldLately(gens, id);
    }
  }

  /** Where each edge has one id, this is simply whether some generation brought it and every one since restored it. */
  lemma {:induction false} EdgesKeptOverRuns(gens: seq<Snapshot>, id: Id)
    requires gens != [] && IdsDetermineEdges(gens)
    ensures id in HostEdges(gens) <==> exists j :: KeptSince(gens, id, j)
    ensures forall j :: KeptSince(gens, id, j) ==> HostEdges(gens)[id] == gens[j].edges[id]
    decreases |gens|
  {
    hide MergedEdges, MergedNodes, TouchesFile, HostNodes;
    var n := |gens| - 1;
    var front := gens[..n];
    if n == 0 {
      assert id in gens[0].edges ==> KeptSince(gens, id, 0);
    } else {
      EdgesKeptOverRuns(front, id);
      forall j | 0 <= j < n
        ensures KeptSince(gens, id, j) <==> KeptSince(front, id, j) && RestoredAt(gens, gens[j].edges[id], n)
      {
        KeptByOneMore(gens, id, j);
      }
      HostEdgesStep(gens, id);
      EdgesAgree(gens, id);
    }
  }

  lemma HostEdgesStep(gens: seq<Snapshot>, id: Id)
    requires |gens| > 1
    ensures var last, before := gens[|gens| - 1], HostEdges(gens[..|gens| - 1]);
            var restored := id in before && RestoredAt(gens, before[id], |gens| - 1);
            && (id in HostEdges(gens) <==> restored || KeptSince(gens, id, |gens| - 1))
            && (id in HostEdges(gens) ==> HostEdges(gens)[id] == if restored then before[id] else last.edges[id])
  {
    hide MergedEdges, TouchesFile;
    var n := |gens| - 1;
    assert gens[..n + 1] == gens;
    MergedEdgeMeans(gens[n].nodes, gens[n].edges, HostNodes(gens[..n]), HostEdges(gens[..n]), ErrorsOf(gens[n]), id);
  }

  lemma EdgesAgree(gens: seq<Snapshot>, id: Id)
    requires |gens| > 1 && IdsDetermineEdges(gens)
    ensures IdsDetermineEdges(gens[..|gens| - 1])
    ensures forall i, j :: KeptSince(gens, id, i) && KeptSince(gens, id, j) ==> gens[i].edges[id] == gens[j].edges[id]
    ensures forall i, j :: KeptSince(gens[..|gens| - 1], id, i) && KeptSince(gens, id, j) ==> gens[i].edges[id] == gens[j].edges[id]
  {
    hide RestoredAt, TouchesFile;
    var front := gens[..|gens| - 1];
    assert forall i :: 0 <= i < |front| ==> front[i] == gens[i];
  }

  /** The last generation without a file that does not parse, or the first. */
  ghost function LastClean(gens: seq<Snapshot>): nat
    requires gens != []
    ensures LastClean(gens) < |gens|
  {
    var k := |gens| - 1;
    if k == 0 || ErrorsOf(gens[k]) == {} then k else LastClean(gens[..k])
  }

  /** The node was reachable in generation j and has been held ever since, from the last clean generation on. */
  ghost predicate ReachableSince(gens: seq<Snapshot>, id: Id, j: int)
    requires gens != []
  {
    && LastClean(gens) <= j < |gens| && id in gens[j].project.reachable
    && forall k :: j <= k < |gens| && LastClean(gens) < k ==> HeldAt(gens, id, k)
  }

  ghost predicate HeldAt(gens: seq<Snapshot>, id: Id, k: int)
    requires 0 <= k < |gens|
  {
    id in HostNodes(gens[..k + 1])
  }

  /** Over any run: the host calls reachable exactly what some generation since the last clean one did, as long as it
      has held the node. */
  lemma {:induction false} HostReachableOverRuns(gens: seq<Snapshot>, id: Id)
    requires gens != []
    ensures id in HostReachable(gens) <==> exists j :: ReachableSince(gens, id, j)
    decreases |gens|
  {
    hide HostNodes;
    var n := |gens| - 1;
    var front := gens[..n];
    assert gens[..n + 1] == gens;
    if n == 0 || ErrorsOf(gens[n]) == {} {
      assert id in gens[n].project.reachable ==> ReachableSince(gens, id, n);
    } else {
      HostReachableOverRuns(front, id);
      forall j | 0 <= j < n
        ensures ReachableSince(gens, id, j) <==> ReachableSince(front, id, j) && id in HostNodes(gens)
      {
        ReachableByOneMore(gens, id, j);
      }
      HeldLast(gens, id);
      assert id in gens[n].project.reachable && id in HostNodes(gens) ==> ReachableSince(gens, id, n);
    }
  }

  lemma HeldBefore(gens: seq<Snapshot>, id: Id, k: nat)
    requires k + 1 < |gens|
    ensures HeldAt(gens[..|gens| - 1], id, k) == HeldAt(gens, id, k)
  {
    assert gens[..|gens| - 1][..k + 1] == gens[..k + 1];
  }

  lemma HeldLast(gens: seq<Snapshot>, id: Id)
    requires gens != []
    ensures HeldAt(gens, id, |gens| - 1) == (id in HostNodes(gens))
  {
    assert gens[..|gens|] == gens;
  }

  lemma CleanBefore(gens: seq<Snapshot>)
    requires |gens| > 1 && ErrorsOf(gens[|gens| - 1]) != {}
    ensures LastClean(gens) == LastClean(gens[..|gens| - 1])
  {
  }

  lemma ReachableByOneMore(gens: seq<Snapshot>, id: Id, j: int)
    requires |gens| > 1 && 0 <= j < |gens| - 1 && ErrorsOf(gens[|gens| - 1]) != {}
    ensures ReachableSince(gens, id, j) <==> ReachableSince(gens[..|gens| - 1], id, j) && id in HostNodes(gens)
  {
    hide HostNodes, HeldAt, LastClean, ErrorsOf;
    var n := |gens| - 1;
    var front := gens[..n];
    CleanBefore(gens);
    assert front[j] == gens[j];
    forall k | 0 <= k < n
      ensures HeldAt(front, id, k) == HeldAt(gens, id, k)
    {
      HeldBefore(gens, id, k);
    }
    HeldLast(gens, id);
  }

  /** A stale node is the node it was, with one more modifier unless it was stale before. */
  lemma StaleIsMarked(n: Node)
    ensures "stale" in MarkStale(n).modifiers && MarkStale(n).(modifiers := n.modifiers) == n
    ensures forall m :: m != "stale" ==> (m in MarkStale(n).modifiers <==> m in n.modifiers)
    ensures "stale" in n.modifiers ==> MarkStale(n) == n
  {
  }

  /** The fresh entry stays the entry if it survives or there is none, and gives way to the last good one otherwise. */
  lemma FreshEntryFirst(merged: Snapshot, current: Snapshot, last: Snapshot)
    requires IsMerge(merged, current, last)
    ensures var paths, entry := ParseErrorPaths(current.diagnostics), current.project.entryNodeId;
            merged.project.entryNodeId ==
            if HasEntry(entry) && !Survives(entry.value, current.nodes, last.nodes, paths) then last.project.entryNodeId else entry
  {
  }
}
