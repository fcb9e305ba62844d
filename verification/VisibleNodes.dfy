/** Which nodes of the document may be shown under the filters, and what stands for a node inside a
    collapsed group. */
module VisibleNodes {
  import opened Wrappers
  import opened EdgeAggregation

  /** An absent parent and an empty one mean the same. */
  datatype Node = Node(id: string, kind: string, title: string, qualifiedName: string, parent: string,
                       test: bool, diff: Diff)

  datatype Document = Document(nodes: seq<Node>, edges: seq<Edge>, entryKey: string, entryReachableIds: Option<set<string>>)

  /** The node kinds and relations that are switched on. */
  datatype Filters = Filters(nodes: set<string>, relations: set<string>, includeTests: bool, changedOnly: bool)

  type Index = map<string, Node>

  function ById(nodes: seq<Node>): Index {
    if nodes == [] then map[] else ById(nodes[..|nodes| - 1])[nodes[|nodes| - 1].id := nodes[|nodes| - 1]]
  }

  // ---------- ancestors ----------

  ghost predicate Ranks(byId: Index, rank: map<string, nat>) {
    && byId.Keys <= rank.Keys
    && forall id :: id in byId && byId[id].parent in byId ==> rank[byId[id].parent] < rank[id]
  }

  /** No node is its own ancestor. */
  ghost predicate Acyclic(byId: Index) {
    exists rank :: Ranks(byId, rank)
  }

  ghost function RankOf(byId: Index): (rank: map<string, nat>)
    requires Acyclic(byId)
    ensures Ranks(byId, rank)
  {
    var rank :| Ranks(byId, rank);
    rank
  }

  ghost function Height(byId: Index, id: string): nat
    requires Acyclic(byId)
  {
    if id in byId then RankOf(byId)[id] + 1 else 0
  }

  ghost function AncestorsFrom(byId: Index, parent: string): seq<string>
    requires Acyclic(byId)
    decreases Height(byId, parent)
  {
    if parent == "" then []
    else if parent !in byId then [parent]
    else [parent] + AncestorsFrom(byId, byId[parent].parent)
  }

  function ParentOf(byId: Index, id: string): string {
    if id in byId then byId[id].parent else ""
  }

  ghost function AncestorsOf(byId: Index, id: string): seq<string>
    requires Acyclic(byId)
  {
    AncestorsFrom(byId, ParentOf(byId, id))
  }

  method ListAncestors(byId: Index, id: string) returns (ancestors: seq<string>)
    requires Acyclic(byId)
    ensures ancestors == AncestorsOf(byId, id)
  {
    ancestors := [];
    var parent := ParentOf(byId, id);
    while parent != ""
      invariant ancestors + AncestorsFrom(byId, parent) == AncestorsOf(byId, id)
      decreases if parent == "" then 0 else Height(byId, parent) + 1
    {
      var next := ParentOf(byId, parent);
      assert AncestorsFrom(byId, parent) == [parent] + AncestorsFrom(byId, next);
      ancestors := ancestors + [parent];
      parent := next;
    }
  }

  function FirstIn(ids: seq<string>, s: set<string>): Option<string> {
    if ids == [] then None else if ids[0] in s then Some(ids[0]) else FirstIn(ids[1..], s)
  }

  ghost predicate IsNearest(ids: seq<string>, s: set<string>, id: string) {
    exists i :: 0 <= i < |ids| && ids[i] == id && forall j :: 0 <= j < i ==> ids[j] !in s
  }

  lemma {:induction false} FirstInMeans(ids: seq<string>, s: set<string>)
    ensures FirstIn(ids, s) == None <==> forall id :: id in ids ==> id !in s
    ensures FirstIn(ids, s).Some? ==> FirstIn(ids, s).value in s && IsNearest(ids, s, FirstIn(ids, s).value)
  {
    if ids != [] {
      FirstInMeans(ids[1..], s);
      assert ids == [ids[0]] + ids[1..];
      if ids[0] in s {
        assert ids[0] == FirstIn(ids, s).value;
      } else if FirstIn(ids, s).Some? {
        var i :| 0 <= i < |ids[1..]| && ids[1..][i] == FirstIn(ids, s).value && forall j :: 0 <= j < i ==> ids[1..][j] !in s;
        assert ids[i + 1] == FirstIn(ids, s).value;
        forall j | 0 <= j < i + 1
          ensures ids[j] !in s
        {
          assert j > 0 ==> ids[j] == ids[1..][j - 1];
        }
      }
    }
  }

  /** The nearest collapsed group around the node that may be shown, or the node itself. */
  ghost function Standing(byId: Index, node: Node, collapsed: set<string>, eligible: set<string>): string
    requires Acyclic(byId)
  {
    var group := FirstIn(AncestorsFrom(byId, node.parent), collapsed * eligible);
    if group.Some? then group.value else node.id
  }

  method CollapsedRepresentative(byId: Index, node: Node, collapsed: set<string>, eligible: set<string>) returns (id: string)
    requires Acyclic(byId)
    ensures id == Standing(byId, node, collapsed, eligible)
  {
    var parent := node.parent;
    while parent != ""
      invariant FirstIn(AncestorsFrom(byId, parent), collapsed * eligible) ==
                FirstIn(AncestorsFrom(byId, node.parent), collapsed * eligible)
      decreases if parent == "" then 0 else Height(byId, parent) + 1
    {
      if parent in collapsed && parent in eligible {
        return parent;
      }
      var next := ParentOf(byId, parent);
      assert AncestorsFrom(byId, parent) == [parent] + AncestorsFrom(byId, next);
      assert AncestorsFrom(byId, parent)[1..] == AncestorsFrom(byId, next);
      parent := next;
    }
    return node.id;
  }

  // ---------- what may be shown ----------

  /** The document's index, the filters, and in entry mode the entry's reachable nodes. */
  datatype Scope = Scope(byId: Index, filters: Filters, entryIds: Option<set<string>>)

  predicate Scoped(sc: Scope, n: Node) {
    (!n.test || sc.filters.includeTests) && (sc.entryIds.None? || n.id in sc.entryIds.value)
  }

  predicate Eligible(sc: Scope, n: Node) {
    Scoped(sc, n) && (!sc.filters.changedOnly || n.diff != Unchanged)
  }

  predicate HiddenCompound(sc: Scope, n: Node) {
    (n.kind == "module" || n.kind == "package") && n.kind !in sc.filters.nodes
  }

  predicate Allowed(filters: Filters, e: Edge) {
    e.kind in filters.relations && (!filters.changedOnly || e.diff != Unchanged)
  }

  function AllowedEdges(filters: Filters, edges: seq<Edge>): seq<Edge> {
    if edges == [] then []
    else AllowedEdges(filters, edges[..|edges| - 1]) +
         if Allowed(filters, edges[|edges| - 1]) then [edges[|edges| - 1]] else []
  }

  predicate ShownAncestor(sc: Scope, id: string) {
    id in sc.byId && sc.byId[id].kind in sc.filters.nodes && (!sc.byId[id].test || sc.filters.includeTests)
  }

  ghost function AddedBy(sc: Scope, n: Node): set<string>
    requires Acyclic(sc.byId)
  {
    (if n.kind in sc.filters.nodes then {n.id} else {}) + set id | id in AncestorsOf(sc.byId, n.id) && ShownAncestor(sc, id)
  }

  method AddCandidate(sc: Scope, n: Node, candidates: set<string>) returns (r: set<string>)
    requires Acyclic(sc.byId)
    ensures r == candidates + AddedBy(sc, n)
  {
    r := candidates;
    if n.kind in sc.filters.nodes {
      r := r + {n.id};
    }
    var ancestors := ListAncestors(sc.byId, n.id);
    ghost var before := r;
    for i := 0 to |ancestors|
      invariant r == before + set id | id in ancestors[..i] && ShownAncestor(sc, id)
    {
      assert ancestors[..i + 1] == ancestors[..i] + [ancestors[i]];
      if ShownAncestor(sc, ancestors[i]) {
        r := r + {ancestors[i]};
      }
    }
    assert ancestors[..|ancestors|] == ancestors;
  }

  ghost function FromNodes(sc: Scope, nodes: seq<Node>): set<string>
    requires Acyclic(sc.byId)
  {
    if nodes == [] then {}
    else FromNodes(sc, nodes[..|nodes| - 1]) +
         if Eligible(sc, nodes[|nodes| - 1]) then AddedBy(sc, nodes[|nodes| - 1]) else {}
  }

  ghost function FromEnd(sc: Scope, id: string): set<string>
    requires Acyclic(sc.byId)
  {
    if id in sc.byId && Scoped(sc, sc.byId[id]) && (sc.byId[id].kind in sc.filters.nodes || HiddenCompound(sc, sc.byId[id]))
    then AddedBy(sc, sc.byId[id]) else {}
  }

  ghost function FromEdges(sc: Scope, edges: seq<Edge>): set<string>
    requires Acyclic(sc.byId)
  {
    if edges == [] then {}
    else FromEdges(sc, edges[..|edges| - 1]) + FromEnd(sc, edges[|edges| - 1].source) + FromEnd(sc, edges[|edges| - 1].target)
  }

  ghost function CandidatesOf(sc: Scope, nodes: seq<Node>, allowed: seq<Edge>): set<string>
    requires Acyclic(sc.byId)
  {
    FromNodes(sc, nodes) + if sc.filters.changedOnly then FromEdges(sc, allowed) else {}
  }

  method Candidates(sc: Scope, nodes: seq<Node>, allowed: seq<Edge>) returns (candidates: set<string>)
    requires Acyclic(sc.byId)
    ensures candidates == CandidatesOf(sc, nodes, allowed)
  {
    candidates := {};
    for i := 0 to |nodes|
      invariant candidates == FromNodes(sc, nodes[..i])
    {
      assert nodes[..i + 1][..i] == nodes[..i];
      if Eligible(sc, nodes[i]) {
        candidates := AddCandidate(sc, nodes[i], candidates);
      }
    }
    assert nodes[..|nodes|] == nodes;
    if sc.filters.changedOnly {
      for i := 0 to |allowed|
        invariant candidates == FromNodes(sc, nodes) + FromEdges(sc, allowed[..i])
      {
        assert allowed[..i + 1][..i] == allowed[..i];
        candidates := AddEnd(sc, allowed[i].source, candidates);
        candidates := AddEnd(sc, allowed[i].target, candidates);
      }
      assert allowed[..|allowed|] == allowed;
    }
  }

  method AddEnd(sc: Scope, id: string, candidates: set<string>) returns (r: set<string>)
    requires Acyclic(sc.byId)
    ensures r == candidates + FromEnd(sc, id)
  {
    r := candidates;
    if id in sc.byId {
      var node := sc.byId[id];
      if Scoped(sc, node) && (node.kind in sc.filters.nodes || HiddenCompound(sc, node)) {
        r := AddCandidate(sc, node, r);
      }
    }
  }

  /** A candidate is a node of the document whose kind is switched on. */
  lemma CandidatesAreNodes(sc: Scope, nodes: seq<Node>, allowed: seq<Edge>, id: string)
    requires Acyclic(sc.byId) && sc.byId == ById(nodes) && id in CandidatesOf(sc, nodes, allowed)
    ensures id in sc.byId
  {
    forall n | n in nodes
      ensures n.id in sc.byId
    {
      IndexHolds(nodes, n);
    }
    forall other | other in sc.byId
      ensures sc.byId[other].id in sc.byId
    {
      IndexedIsNode(nodes, other);
    }
    if id in FromNodes(sc, nodes) {
      FromNodesAreNodes(sc, nodes, id);
    } else {
      FromEdgesAreNodes(sc, allowed, id);
    }
  }

  lemma {:induction false} IndexHolds(nodes: seq<Node>, n: Node)
    requires n in nodes
    ensures n.id in ById(nodes)
  {
    var last := |nodes| - 1;
    if n != nodes[last] {
      assert n in nodes[..last];
      IndexHolds(nodes[..last], n);
    }
  }

  lemma {:induction false} IndexedIsNode(nodes: seq<Node>, id: string)
    requires id in ById(nodes)
    ensures ById(nodes)[id] in nodes && ById(nodes)[id].id == id
  {
    var last := |nodes| - 1;
    if id != nodes[last].id {
      IndexedIsNode(nodes[..last], id);
    }
  }

  lemma {:induction false} FromNodesAreNodes(sc: Scope, nodes: seq<Node>, id: string)
    requires Acyclic(sc.byId) && id in FromNodes(sc, nodes) && forall n :: n in nodes ==> n.id in sc.byId
    ensures id in sc.byId
  {
    var last := |nodes| - 1;
    assert nodes[last] in nodes;
    if id in FromNodes(sc, nodes[..last]) {
      FromNodesAreNodes(sc, nodes[..last], id);
    }
  }

  lemma FromEndIsNode(sc: Scope, end: string, id: string)
    requires Acyclic(sc.byId) && id in FromEnd(sc, end)
    requires forall other :: other in sc.byId ==> sc.byId[other].id in sc.byId
    ensures id in sc.byId
  {
    hide AncestorsOf;
  }

  lemma {:induction false} FromEdgesAreNodes(sc: Scope, edges: seq<Edge>, id: string)
    requires Acyclic(sc.byId) && id in FromEdges(sc, edges)
    requires forall other :: other in sc.byId ==> sc.byId[other].id in sc.byId
    ensures id in sc.byId
  {
    hide FromEnd;
    var last := |edges| - 1;
    if id in FromEdges(sc, edges[..last]) {
      FromEdgesAreNodes(sc, edges[..last], id);
    } else if id in FromEnd(sc, edges[last].source) {
      FromEndIsNode(sc, edges[last].source, id);
    } else {
      FromEndIsNode(sc, edges[last].target, id);
    }
  }
}
