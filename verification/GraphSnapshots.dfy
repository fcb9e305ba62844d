/** One generation of the code graph as the host keeps it. */
module GraphSnapshots {
  import opened Wrappers

  type Id = string

  datatype Range = Range(startLine: int, startColumn: int, endLine: int, endColumn: int)

  datatype Node = Node(id: Id, kind: string, language: Option<string>, name: string, qualifiedName: string,
                       path: Option<string>, range: Option<Range>, signature: Option<string>, docstring: Option<string>,
                       external: bool, unresolved: bool, reason: Option<string>, modifiers: seq<string>)

  datatype Edge = Edge(id: Id, kind: string, language: string, source: Id, target: Id,
                       path: Option<string>, range: Option<Range>, reason: Option<string>)

  datatype Diagnostic = Diagnostic(code: string, severity: string, message: string,
                                   path: Option<string>, range: Option<Range>)

  datatype Project = Project(root: string, languages: seq<string>, entryNodeId: Option<Id>, reachable: seq<Id>)

  /** The index maps hold, for a node, the ids of its outgoing and incoming edges. */
  datatype Snapshot = Snapshot(project: Project, nodes: map<Id, Node>, edges: map<Id, Edge>,
                               diagnostics: seq<Diagnostic>, outgoing: map<Id, set<Id>>, incoming: map<Id, set<Id>>,
                               files: set<string>)

  /** An empty id stands for no entry, like a missing one. */
  predicate HasEntry(entry: Option<Id>) {
    entry.Some? && entry.value != ""
  }

  predicate NoDangling(nodes: map<Id, Node>, edges: map<Id, Edge>) {
    forall id :: id in edges ==> edges[id].source in nodes && edges[id].target in nodes
  }

  predicate OwnIds(nodes: map<Id, Node>, edges: map<Id, Edge>) {
    (forall id :: id in nodes ==> nodes[id].id == id) && (forall id :: id in edges ==> edges[id].id == id)
  }

  function Get(index: map<Id, set<Id>>, id: Id): set<Id> {
    if id in index then index[id] else {}
  }

  /** The indexes list exactly the edges at each node, and the files exactly the paths of the nodes. */
  ghost predicate Indexed(s: Snapshot) {
    && (forall n, e :: e in Get(s.outgoing, n) <==> e in s.edges && s.edges[e].source == n)
    && (forall n, e :: e in Get(s.incoming, n) <==> e in s.edges && s.edges[e].target == n)
    && (forall path :: path in s.files <==> exists id :: id in s.nodes && s.nodes[id].path == Some(path))
  }

  ghost predicate Valid(s: Snapshot) {
    OwnIds(s.nodes, s.edges) && NoDangling(s.nodes, s.edges) && Indexed(s)
  }

  function AddTo(index: map<Id, set<Id>>, key: Id, id: Id): map<Id, set<Id>> {
    index[key := Get(index, key) + {id}]
  }

  function End(edge: Edge, outgoing: bool): Id {
    if outgoing then edge.source else edge.target
  }

  /** The index covers the edges outside `pending`. */
  ghost predicate Covers(index: map<Id, set<Id>>, edges: map<Id, Edge>, pending: set<Id>, outgoing: bool) {
    forall n, e :: e in Get(index, n) <==> e in edges && e !in pending && End(edges[e], outgoing) == n
  }

  lemma CoversOneMore(index: map<Id, set<Id>>, edges: map<Id, Edge>, pending: set<Id>, outgoing: bool, e: Id)
    requires Covers(index, edges, pending, outgoing) && e in pending && e in edges
    ensures Covers(AddTo(index, End(edges[e], outgoing), e), edges, pending - {e}, outgoing)
  {
    var index' := AddTo(index, End(edges[e], outgoing), e);
    forall n, other
      ensures other in Get(index', n) <==> other in edges && other !in pending - {e} && End(edges[other], outgoing) == n
    {
      assert other in Get(index', n) <==> (other in Get(index, n) || (n == End(edges[e], outgoing) && other == e));
    }
  }

  method FilesOf(nodes: map<Id, Node>) returns (files: set<string>)
    ensures forall path :: path in files <==> exists id :: id in nodes && nodes[id].path == Some(path)
  {
    files := {};
    var pending := nodes.Keys;
    while pending != {}
      invariant pending <= nodes.Keys
      invariant forall path :: path in files <==>
                  exists id :: id in nodes && id !in pending && nodes[id].path == Some(path)
    {
      var id :| id in pending;
      pending := pending - {id};
      if nodes[id].path.Some? {
        files := files + {nodes[id].path.value};
      }
    }
  }

  /** Rebuilds the indexes and the file set; an edge with an unknown end is an error. */
  method RebuildIndexes(s: Snapshot) returns (r: Result<Snapshot>)
    ensures r.Ok? <==> NoDangling(s.nodes, s.edges)
    ensures r.Ok? ==> Indexed(r.value)
    ensures r.Ok? ==> r.value == s.(outgoing := r.value.outgoing, incoming := r.value.incoming, files := r.value.files)
  {
    var files := FilesOf(s.nodes);
    var outgoing: map<Id, set<Id>>, incoming: map<Id, set<Id>> := map[], map[];
    var pending := s.edges.Keys;
    assert Covers(outgoing, s.edges, pending, true) && Covers(incoming, s.edges, pending, false);
    while pending != {}
      invariant pending <= s.edges.Keys
      invariant forall e :: e in s.edges && e !in pending ==> s.edges[e].source in s.nodes && s.edges[e].target in s.nodes
      invariant Covers(outgoing, s.edges, pending, true) && Covers(incoming, s.edges, pending, false)
    {
      hide Covers;
      var e :| e in pending;
      var edge := s.edges[e];
      if edge.source !in s.nodes || edge.target !in s.nodes {
        return Err("dangling edge: " + edge.id);
      }
      CoversOneMore(outgoing, s.edges, pending, true, e);
      CoversOneMore(incoming, s.edges, pending, false, e);
      outgoing := AddTo(outgoing, edge.source, e);
      incoming := AddTo(incoming, edge.target, e);
      pending := pending - {e};
    }
    return Ok(s.(outgoing := outgoing, incoming := incoming, files := files));
  }
}
