/** The record stream between the analyzer, which writes a graph document, and the host, which
    reads it back into a snapshot. */
module GraphStream {
  import opened Wrappers
  import opened TextOrder
  import opened JsonText
  import opened GraphSnapshots

  const SCHEMA := "code-view.graph/v1"
  const MAX_NODES := 500_000
  const MAX_EDGES := 2_000_000
  const MAX_LINE := 1_000_000

  datatype Document = Document(project: Project, nodes: seq<Node>, edges: seq<Edge>, diagnostics: seq<Diagnostic>)

  datatype Record =
    | Meta(schemaVersion: string, project: Project)
    | NodeRecord(node: Node)
    | EdgeRecord(edge: Edge)
    | DiagnosticRecord(diagnostic: Diagnostic)
    | Summary(nodeCount: int, edgeCount: int, diagnosticCount: int)
    | Unknown

  // ---------- keys ----------

  function RangeKey(range: Option<Range>): string {
    match range
    case None => ""
    case Some(r) => Decimal(r.startLine) + ":" + Decimal(r.startColumn) + ":" + Decimal(r.endLine) + ":" + Decimal(r.endColumn)
  }

  function OrEmpty(text: Option<string>): string {
    if text.Some? then text.value else ""
  }

  function NodeKey(n: Node): seq<string> {
    [n.qualifiedName, n.kind, n.id]
  }

  function EdgeKey(e: Edge): seq<string> {
    [e.kind, e.source, e.target, OrEmpty(e.path), RangeKey(e.range)]
  }

  function DiagnosticKey(d: Diagnostic): seq<string> {
    [OrEmpty(d.path), RangeKey(d.range), d.code, d.message]
  }

  // ---------- lines ----------

  function StringOrNull(text: Option<string>): Json {
    if text.Some? then Text(text.value) else Null
  }

  function TextList(texts: seq<string>): Json {
    List(seq(|texts|, i requires 0 <= i < |texts| => Text(texts[i])))
  }

  function PositionJson(line: int, column: int): Json {
    Object([Field("column", Number(column)), Field("line", Number(line))])
  }

  function RangeJson(range: Option<Range>): Json {
    match range
    case None => Null
    case Some(r) => Object([Field("end", PositionJson(r.endLine, r.endColumn)), Field("start", PositionJson(r.startLine, r.startColumn))])
  }

  function ProjectJson(p: Project): Json {
    Object([Field("entryNodeId", StringOrNull(p.entryNodeId)), Field("entryReachableNodeIds", TextList(p.reachable)),
            Field("languages", TextList(p.languages)), Field("root", Text(p.root))])
  }

  function NodeJson(n: Node): Json {
    Object([Field("docstring", StringOrNull(n.docstring)), Field("external", Bool(n.external)), Field("id", Text(n.id)),
            Field("kind", Text(n.kind)), Field("language", StringOrNull(n.language)), Field("modifiers", TextList(n.modifiers)),
            Field("name", Text(n.name)), Field("path", StringOrNull(n.path)), Field("qualifiedName", Text(n.qualifiedName)),
            Field("range", RangeJson(n.range)), Field("reason", StringOrNull(n.reason)),
            Field("signature", StringOrNull(n.signature)), Field("unresolved", Bool(n.unresolved))])
  }

  function EdgeJson(e: Edge): Json {
    Object([Field("id", Text(e.id)), Field("kind", Text(e.kind)), Field("language", Text(e.language)),
            Field("path", StringOrNull(e.path)), Field("range", RangeJson(e.range)), Field("reason", StringOrNull(e.reason)),
            Field("source", Text(e.source)), Field("target", Text(e.target))])
  }

  function DiagnosticJson(d: Diagnostic): Json {
    Object([Field("code", Text(d.code)), Field("message", Text(d.message)), Field("path", StringOrNull(d.path)),
            Field("range", RangeJson(d.range)), Field("severity", Text(d.severity))])
  }

  /** The line the analyzer writes for a record, with its keys in ascending order. */
  function LineOf(r: Record): string {
    Dumps(match r
          case Meta(schemaVersion, project) =>
            Object([Field("project", ProjectJson(project)), Field("record", Text("meta")), Field("schemaVersion", Text(schemaVersion))])
          case NodeRecord(node) => Object([Field("node", NodeJson(node)), Field("record", Text("node"))])
          case EdgeRecord(edge) => Object([Field("edge", EdgeJson(edge)), Field("record", Text("edge"))])
          case DiagnosticRecord(diagnostic) =>
            Object([Field("diagnostic", DiagnosticJson(diagnostic)), Field("record", Text("diagnostic"))])
          case Summary(nodeCount, edgeCount, diagnosticCount) =>
            Object([Field("diagnosticCount", Number(diagnosticCount)), Field("edgeCount", Number(edgeCount)),
                    Field("nodeCount", Number(nodeCount)), Field("record", Text("summary"))])
          case Unknown => Null)
  }

  predicate LineFits(r: Record) {
    |LineOf(r)| <= MAX_LINE
  }

  // ---------- single records ----------

  predicate HexId(prefix: string, id: Id) {
    |id| == |prefix| + 24 && prefix <= id &&
    forall i :: |prefix| <= i < |id| ==> '0' <= id[i] <= '9' || 'a' <= id[i] <= 'f'
  }

  predicate RangeOk(range: Option<Range>) {
    range.Some? ==>
      var r := range.value;
      && r.startLine >= 1 && r.startColumn >= 1 && r.endLine >= 1 && r.endColumn >= 1
      && (r.startLine < r.endLine || (r.startLine == r.endLine && r.startColumn <= r.endColumn))
  }

  const NODE_KINDS: set<string> :=
    {"repository", "package", "file", "module", "class", "function", "method", "variable", "external", "unresolved"}

  const EDGE_KINDS: set<string> :=
    {"contains", "imports", "calls", "inherits", "constructs", "reads", "writes", "decorates", "type_uses", "api_calls", "test_covers"}

  predicate NodeOk(n: Node) {
    && LineFits(NodeRecord(n)) && HexId("n_", n.id) && n.kind in NODE_KINDS && RangeOk(n.range)
    && n.external == (n.kind == "external") && n.unresolved == (n.kind == "unresolved")
    && (if n.external || n.unresolved then n.reason.Some? && n.reason.value != "" else n.reason.None?)
  }

  predicate EdgeOk(e: Edge) {
    && LineFits(EdgeRecord(e)) && HexId("e_", e.id) && e.kind in EDGE_KINDS
    && e.source != "" && e.target != "" && e.language != "" && RangeOk(e.range)
  }

  predicate DiagnosticOk(d: Diagnostic) {
    LineFits(DiagnosticRecord(d)) && d.code != "" && d.severity in {"info", "warning", "error"} && RangeOk(d.range)
  }

  // ---------- documents ----------

  ghost predicate Distinct<T>(s: seq<T>) {
    forall i, j :: 0 <= i < j < |s| ==> s[i] != s[j]
  }

  /** A section of the stream: valid items with distinct ids, none sorted before its neighbour. */
  ghost predicate ListOk<T>(items: seq<T>, ok: T -> bool, id: T -> Id, key: T -> seq<string>, max: nat) {
    && |items| <= max
    && (forall i :: 0 <= i < |items| ==> ok(items[i]))
    && (forall i, j :: 0 <= i < j < |items| ==> id(items[i]) != id(items[j]))
    && (forall i :: 0 <= i < |items| - 1 ==> !KeyLess(key(items[i + 1]), key(items[i])))
  }

  function NodeId(n: Node): Id {
    n.id
  }

  function EdgeId(e: Edge): Id {
    e.id
  }

  ghost predicate NodesOk(nodes: seq<Node>) {
    ListOk(nodes, NodeOk, NodeId, NodeKey, MAX_NODES)
  }

  ghost predicate EdgesOk(edges: seq<Edge>) {
    ListOk(edges, EdgeOk, EdgeId, EdgeKey, MAX_EDGES)
  }

  ghost predicate DiagnosticsOk(ds: seq<Diagnostic>) {
    && (forall i :: 0 <= i < |ds| ==> DiagnosticOk(ds[i]))
    && (forall i :: 0 <= i < |ds| - 1 ==> !KeyLess(DiagnosticKey(ds[i + 1]), DiagnosticKey(ds[i])))
  }

  ghost predicate IsNode(d: Document, id: Id) {
    exists n :: n in d.nodes && n.id == id
  }

  ghost predicate ReferencesOk(d: Document) {
    && (forall e :: e in d.edges ==> IsNode(d, e.source) && IsNode(d, e.target))
    && (HasEntry(d.project.entryNodeId) ==>
          IsNode(d, d.project.entryNodeId.value) && d.project.entryNodeId.value in d.project.reachable)
    && Distinct(d.project.reachable)
    && (forall id :: id in d.project.reachable ==> IsNode(d, id))
  }

  function SummaryOf(d: Document): Record {
    Summary(|d.nodes|, |d.edges|, |d.diagnostics|)
  }

  /** What the host demands of a document. */
  ghost predicate DocumentOk(d: Document) {
    && d.project.root == "." && LineFits(Meta(SCHEMA, d.project)) && LineFits(SummaryOf(d))
    && NodesOk(d.nodes) && EdgesOk(d.edges) && DiagnosticsOk(d.diagnostics) && ReferencesOk(d)
  }

  /** A document in good order is sorted throughout, not just between neighbours. */
  lemma DocumentSorted(d: Document)
    requires DocumentOk(d)
    ensures Sorted(d.nodes, NodeKey) && Sorted(d.edges, EdgeKey) && Sorted(d.diagnostics, DiagnosticKey)
  {
    NeighboursSorted(d.nodes, NodeKey);
    NeighboursSorted(d.edges, EdgeKey);
    NeighboursSorted(d.diagnostics, DiagnosticKey);
  }

  /** The first of the keys comes before the second by their first three parts, or they agree on those. */
  predicate InOrderByThree(a: seq<string>, b: seq<string>)
    requires |a| >= 3 && |b| >= 3
  {
    || Less(a[0], b[0])
    || (a[0] == b[0] && (Less(a[1], b[1]) || (a[1] == b[1] && (Less(a[2], b[2]) || a[2] == b[2]))))
  }

  /** Nodes come by qualified name, then kind, then id; edges by kind, then source, then target. */
  lemma DocumentOrder(d: Document, i: nat, j: nat)
    requires DocumentOk(d) && i < j
    ensures j < |d.nodes| ==>
              var a, b := d.nodes[i], d.nodes[j];
              InOrderByThree([a.qualifiedName, a.kind, a.id], [b.qualifiedName, b.kind, b.id])
    ensures j < |d.edges| ==>
              var a, b := d.edges[i], d.edges[j];
              InOrderByThree([a.kind, a.source, a.target], [b.kind, b.source, b.target])
  {
    DocumentSorted(d);
    hide DocumentOk, KeyLess, Less;
    if j < |d.nodes| {
      var a, b := d.nodes[i], d.nodes[j];
      ThreeParts(NodeKey(a), NodeKey(b), [a.qualifiedName, a.kind, a.id], [b.qualifiedName, b.kind, b.id]);
    }
    if j < |d.edges| {
      var a, b := d.edges[i], d.edges[j];
      ThreeParts(EdgeKey(a), EdgeKey(b), [a.kind, a.source, a.target], [b.kind, b.source, b.target]);
    }
  }

  lemma ThreeParts(a: seq<string>, b: seq<string>, x: seq<string>, y: seq<string>)
    requires |a| == |b| >= 3 && !KeyLess(b, a) && |x| == |y| == 3
    requires forall k :: 0 <= k < 3 ==> x[k] == a[k] && y[k] == b[k]
    ensures InOrderByThree(x, y)
  {
    hide Less, KeyLess;
    NotKeyLess(b, a);
    LessTotal(a[0], b[0]);
    LessTotal(a[1], b[1]);
    LessTotal(a[2], b[2]);
  }

  lemma NotKeyLess(b: seq<string>, a: seq<string>)
    requires |a| == |b| >= 3 && !KeyLess(b, a)
    ensures !Less(b[0], a[0])
    ensures b[0] == a[0] ==> !Less(b[1], a[1])
    ensures b[0] == a[0] && b[1] == a[1] ==> !Less(b[2], a[2])
  {
    hide Less;
    assert b[1..][0] == b[1] && a[1..][0] == a[1] && b[1..][1..][0] == b[2] && a[1..][1..][0] == a[2];
    assert KeyLess(b[1..], a[1..]) && b[0] == a[0] ==> KeyLess(b, a);
    assert KeyLess(b[1..][1..], a[1..][1..]) && b[1] == a[1] ==> KeyLess(b[1..], a[1..]);
  }

  // ---------- writing ----------

  function Records(d: Document): seq<Record> {
    [Meta(SCHEMA, d.project)] + NodeRecords(d.nodes) + EdgeRecords(d.edges) + DiagnosticRecords(d.diagnostics) +
    [Summary(|d.nodes|, |d.edges|, |d.diagnostics|)]
  }

  function NodeRecords(nodes: seq<Node>): (r: seq<Record>)
    ensures |r| == |nodes| && forall i :: 0 <= i < |nodes| ==> r[i] == NodeRecord(nodes[i])
  {
    if nodes == [] then [] else [NodeRecord(nodes[0])] + NodeRecords(nodes[1..])
  }

  function EdgeRecords(edges: seq<Edge>): (r: seq<Record>)
    ensures |r| == |edges| && forall i :: 0 <= i < |edges| ==> r[i] == EdgeRecord(edges[i])
  {
    if edges == [] then [] else [EdgeRecord(edges[0])] + EdgeRecords(edges[1..])
  }

  function DiagnosticRecords(ds: seq<Diagnostic>): (r: seq<Record>)
    ensures |r| == |ds| && forall i :: 0 <= i < |ds| ==> r[i] == DiagnosticRecord(ds[i])
  {
    if ds == [] then [] else [DiagnosticRecord(ds[0])] + DiagnosticRecords(ds[1..])
  }

  lemma WriteNext(before: seq<Record>, section: seq<Record>, i: nat)
    requires i < |section|
    ensures before + section[..i] + [section[i]] == before + section[..i + 1]
  {
  }

  method WriteNdjson(d: Document) returns (stream: seq<Record>)
    ensures stream == Records(d)
  {
    hide NodeRecords, EdgeRecords, DiagnosticRecords;
    ghost var nodes, edges, diagnostics := NodeRecords(d.nodes), EdgeRecords(d.edges), DiagnosticRecords(d.diagnostics);
    stream := [Meta(SCHEMA, d.project)];
    ghost var before := stream;
    for i := 0 to |d.nodes|
      invariant stream == before + nodes[..i]
    {
      WriteNext(before, nodes, i);
      stream := stream + [NodeRecord(d.nodes[i])];
    }
    assert nodes[..|nodes|] == nodes;
    before := stream;
    for i := 0 to |d.edges|
      invariant stream == before + edges[..i]
    {
      WriteNext(before, edges, i);
      stream := stream + [EdgeRecord(d.edges[i])];
    }
    assert edges[..|edges|] == edges;
    before := stream;
    for i := 0 to |d.diagnostics|
      invariant stream == before + diagnostics[..i]
    {
      WriteNext(before, diagnostics, i);
      stream := stream + [DiagnosticRecord(d.diagnostics[i])];
    }
    assert diagnostics[..|diagnostics|] == diagnostics;
    stream := stream + [Summary(|d.nodes|, |d.edges|, |d.diagnostics|)];
  }

  // ---------- the position of a record in a stream ----------

  /** The record at position i, by the sections of the document. */
  lemma RecordAt(d: Document, i: nat)
    requires i < |Records(d)|
    ensures var n, e, g := |d.nodes|, |d.edges|, |d.diagnostics|;
            && |Records(d)| == n + e + g + 2
            && Records(d)[i] ==
                 if i == 0 then Meta(SCHEMA, d.project)
                 else if i <= n then NodeRecord(d.nodes[i - 1])
                 else if i <= n + e then EdgeRecord(d.edges[i - 1 - n])
                 else if i <= n + e + g then DiagnosticRecord(d.diagnostics[i - 1 - n - e])
                 else Summary(n, e, g)
  {
  }

  /** What has been read so far, section by section; nothing before the meta record. */
  function Prefix(d: Document): seq<Record> {
    [Meta(SCHEMA, d.project)] + NodeRecords(d.nodes) + EdgeRecords(d.edges) + DiagnosticRecords(d.diagnostics)
  }

  ghost predicate ReadSoFar(records: seq<Record>, i: nat, d: Document) {
    i <= |records| && records[..i] == Prefix(d)
  }

  lemma ReadLength(records: seq<Record>, i: nat, d: Document)
    requires ReadSoFar(records, i, d)
    ensures i == 1 + |d.nodes| + |d.edges| + |d.diagnostics| <= |records|
  {
    assert |Prefix(d)| == 1 + |d.nodes| + |d.edges| + |d.diagnostics|;
  }

  /** The same record seen from the part read so far and from a whole document. */
  lemma SameAt(records: seq<Record>, i: nat, d: Document, whole: Document, k: nat)
    requires ReadSoFar(records, i, d) && records == Records(whole) && k < i
    ensures i == 1 + |d.nodes| + |d.edges| + |d.diagnostics|
    ensures Section(d, k) == Section(whole, k)
  {
    assert records[..i][k] == Prefix(d)[k];
    RecordAt(whole, k);
  }

  /** The k-th record of a document, by its sections. */
  function Section(d: Document, k: nat): Record {
    var n, e, g := |d.nodes|, |d.edges|, |d.diagnostics|;
    if k == 0 then Meta(SCHEMA, d.project)
    else if k <= n then NodeRecord(d.nodes[k - 1])
    else if k <= n + e then EdgeRecord(d.edges[k - 1 - n])
    else if k <= n + e + g then DiagnosticRecord(d.diagnostics[k - 1 - n - e])
    else Summary(n, e, g)
  }

  lemma NodesPartOf(records: seq<Record>, i: nat, d: Document, whole: Document)
    requires ReadSoFar(records, i, d) && records == Records(whole)
    ensures d.project == whole.project && d.nodes <= whole.nodes
  {
    hide ReadSoFar, Records;
    ReadLength(records, i, d);
    SameAt(records, i, d, whole, 0);
    SameAt(records, i, d, whole, |d.nodes|);
    assert |d.nodes| <= |whole.nodes|;
    forall k | 0 <= k < |d.nodes|
      ensures d.nodes[k] == whole.nodes[k]
    {
      SameAt(records, i, d, whole, k + 1);
    }
  }

  lemma EdgesPartOf(records: seq<Record>, i: nat, d: Document, whole: Document)
    requires ReadSoFar(records, i, d) && records == Records(whole)
    ensures d.edges <= whole.edges && (d.edges != [] ==> d.nodes == whole.nodes)
  {
    hide ReadSoFar, Records;
    ReadLength(records, i, d);
    NodesPartOf(records, i, d, whole);
    var n, e := |d.nodes|, |d.edges|;
    if e > 0 {
      SameAt(records, i, d, whole, n + 1);
      SameAt(records, i, d, whole, n + e);
      assert n == |whole.nodes| && e <= |whole.edges|;
      forall k | 0 <= k < e
        ensures d.edges[k] == whole.edges[k]
      {
        SameAt(records, i, d, whole, n + 1 + k);
      }
    }
  }

  lemma DiagnosticsPartOf(records: seq<Record>, i: nat, d: Document, whole: Document)
    requires ReadSoFar(records, i, d) && records == Records(whole)
    ensures d.diagnostics <= whole.diagnostics
    ensures d.diagnostics != [] ==> d.nodes == whole.nodes && d.edges == whole.edges
  {
    hide ReadSoFar, Records;
    ReadLength(records, i, d);
    NodesPartOf(records, i, d, whole);
    EdgesPartOf(records, i, d, whole);
    var n, e, g := |d.nodes|, |d.edges|, |d.diagnostics|;
    if g > 0 {
      SameAt(records, i, d, whole, n + e + 1);
      SameAt(records, i, d, whole, n + e + g);
      assert n == |whole.nodes| && e == |whole.edges| && g <= |whole.diagnostics|;
      forall k | 0 <= k < g
        ensures d.diagnostics[k] == whole.diagnostics[k]
      {
        SameAt(records, i, d, whole, n + e + 1 + k);
      }
    }
  }

  /** The document read so far is a part of every document the whole stream may spell, and the
      next record continues it in one of the ways the sections allow. */
  lemma PartOf(records: seq<Record>, i: nat, d: Document, whole: Document)
    requires ReadSoFar(records, i, d) && records == Records(whole)
    ensures i < |records| && Records(whole)[i] == Section(whole, i)
    ensures d.project == whole.project && d.nodes <= whole.nodes && d.edges <= whole.edges && d.diagnostics <= whole.diagnostics
    ensures d.edges != [] ==> d.nodes == whole.nodes
    ensures d.diagnostics != [] ==> d.nodes == whole.nodes && d.edges == whole.edges
    ensures i == 1 + |d.nodes| + |d.edges| + |d.diagnostics|
  {
    ReadLength(records, i, d);
    NodesPartOf(records, i, d, whole);
    EdgesPartOf(records, i, d, whole);
    DiagnosticsPartOf(records, i, d, whole);
    RecordAt(whole, 0);
    if i < |records| {
      RecordAt(whole, i);
    }
  }

  // ---------- reading ----------

  /** The reader's state; `phase` is 0 before the meta record, then 1 to 3 for nodes, edges and
      diagnostics, and 4 after the summary. */
  datatype Reader = Reader(metaSeen: bool, summarySeen: bool, phase: nat, project: Project,
                           nodes: map<Id, Node>, edges: map<Id, Edge>, diagnostics: seq<Diagnostic>,
                           previousNode: Option<Node>, previousEdge: Option<Edge>, expected: (int, int, int))

  const START := Reader(false, false, 0, Project("", [], None, []), map[], map[], [], None, None, (-1, -1, -1))

  function Accept(st: Reader, r: Record): Result<Reader> {
    if !LineFits(r) then Err("NDJSON line exceeds 1 MB")
    else match r
    case Meta(schemaVersion, project) =>
      if st.metaSeen || |st.nodes| != 0 || |st.edges| != 0 then Err("meta must be the first record")
      else if schemaVersion != SCHEMA then Err("unsupported graph schemaVersion")
      else if project.root != "." then Err("project.root must be '.'")
      else Ok(st.(metaSeen := true, phase := 1, project := project))
    case NodeRecord(node) =>
      if !st.metaSeen || st.summarySeen || st.phase != 1 then Err("invalid node record position or envelope")
      else if !NodeOk(node) || node.id in st.nodes then Err("invalid or duplicate node")
      else if st.previousNode.Some? && KeyLess(NodeKey(node), NodeKey(st.previousNode.value)) then Err("node records must be sorted")
      else if |st.nodes| + 1 > MAX_NODES then Err("graph exceeds node limit")
      else Ok(st.(nodes := st.nodes[node.id := node], previousNode := Some(node)))
    case EdgeRecord(edge) =>
      if !st.metaSeen || st.summarySeen || st.phase > 2 then Err("invalid edge record position or envelope")
      else if !EdgeOk(edge) || edge.id in st.edges then Err("invalid or duplicate edge")
      else if st.previousEdge.Some? && KeyLess(EdgeKey(edge), EdgeKey(st.previousEdge.value)) then Err("edge records must be sorted")
      else if |st.edges| + 1 > MAX_EDGES then Err("graph exceeds edge limit")
      else Ok(st.(phase := 2, edges := st.edges[edge.id := edge], previousEdge := Some(edge)))
    case DiagnosticRecord(diagnostic) =>
      if !st.metaSeen || st.summarySeen || st.phase > 3 then Err("invalid diagnostic record position or envelope")
      else if !DiagnosticOk(diagnostic) then Err("invalid diagnostic")
      else if st.diagnostics != [] && KeyLess(DiagnosticKey(diagnostic), DiagnosticKey(st.diagnostics[|st.diagnostics| - 1])) then
        Err("diagnostic records must be sorted")
      else Ok(st.(phase := 3, diagnostics := st.diagnostics + [diagnostic]))
    case Summary(nodeCount, edgeCount, diagnosticCount) =>
      if !st.metaSeen || st.summarySeen || st.phase > 3 then Err("invalid summary record")
      else Ok(st.(summarySeen := true, phase := 4, expected := (nodeCount, edgeCount, diagnosticCount)))
    case Unknown => Err("unknown NDJSON record")
  }

  // ---------- what the reader knows ----------

  /** A hash of the items read so far, and the last of them. */
  ghost predicate HoldsItems<T>(items: map<Id, T>, previous: Option<T>, list: seq<T>, id: T -> Id) {
    && |items| == |list|
    && (forall i :: 0 <= i < |list| ==> id(list[i]) in items && items[id(list[i])] == list[i])
    && (forall x :: x in items ==> items[x] in list && id(items[x]) == x)
    && previous == if list == [] then None else Some(list[|list| - 1])
  }

  ghost predicate Holds(st: Reader, d: Document) {
    && st.project == d.project && d.project.root == "." && LineFits(Meta(SCHEMA, d.project))
    && NodesOk(d.nodes) && HoldsItems(st.nodes, st.previousNode, d.nodes, NodeId)
    && EdgesOk(d.edges) && HoldsItems(st.edges, st.previousEdge, d.edges, EdgeId)
    && DiagnosticsOk(d.diagnostics) && st.diagnostics == d.diagnostics
  }

  ghost predicate PhaseOf(phase: nat, d: Document) {
    phase == if d.diagnostics != [] then 3 else if d.edges != [] then 2 else 1
  }

  ghost predicate Reading(records: seq<Record>, i: nat, st: Reader, d: Document) {
    && i <= |records|
    && if !st.metaSeen then i == 0 && st == START
       else if !st.summarySeen then ReadSoFar(records, i, d) && Holds(st, d) && PhaseOf(st.phase, d)
       else
         && i > 0 && ReadSoFar(records, i - 1, d) && Holds(st, d) && st.phase == 4
         && records[i - 1] == Summary(st.expected.0, st.expected.1, st.expected.2) && LineFits(records[i - 1])
  }

  lemma ListOkPrefix<T>(part: seq<T>, whole: seq<T>, ok: T -> bool, id: T -> Id, key: T -> seq<string>, max: nat)
    requires part <= whole && ListOk(whole, ok, id, key, max)
    ensures ListOk(part, ok, id, key, max)
  {
    assert forall i :: 0 <= i < |part| ==> part[i] == whole[i];
  }

  lemma DiagnosticsOkPrefix(part: seq<Diagnostic>, whole: seq<Diagnostic>)
    requires part <= whole && DiagnosticsOk(whole)
    ensures DiagnosticsOk(part)
  {
    assert forall i :: 0 <= i < |part| ==> part[i] == whole[i];
  }

  /** The reader's checks on the next item are those of a section with one item more. */
  ghost predicate Extends<T>(items: map<Id, T>, previous: Option<T>, item: T, ok: T -> bool, id: T -> Id, key: T -> seq<string>, max: nat) {
    && ok(item) && id(item) !in items && |items| + 1 <= max
    && !(previous.Some? && KeyLess(key(item), key(previous.value)))
  }

  lemma ItemAccepted<T>(items: map<Id, T>, previous: Option<T>, list: seq<T>, item: T,
                        ok: T -> bool, id: T -> Id, key: T -> seq<string>, max: nat)
    requires ListOk(list, ok, id, key, max) && HoldsItems(items, previous, list, id)
    requires Extends(items, previous, item, ok, id, key, max)
    ensures ListOk(list + [item], ok, id, key, max)
    ensures HoldsItems(items[id(item) := item], Some(item), list + [item], id)
  {
  }

  lemma ItemRefused<T>(items: map<Id, T>, previous: Option<T>, list: seq<T>, item: T,
                       ok: T -> bool, id: T -> Id, key: T -> seq<string>, max: nat)
    requires HoldsItems(items, previous, list, id) && ListOk(list + [item], ok, id, key, max)
    ensures Extends(items, previous, item, ok, id, key, max)
  {
    var more := list + [item];
    assert more[|list|] == item;
    forall k | 0 <= k < |list|
      ensures id(list[k]) != id(item)
    {
      assert more[k] == list[k];
    }
    if list != [] {
      assert more[|list| - 1] == list[|list| - 1];
      assert !KeyLess(key(more[|list| - 1 + 1]), key(more[|list| - 1]));
    }
  }

  lemma DiagnosticAccepted(list: seq<Diagnostic>, d: Diagnostic)
    requires DiagnosticsOk(list)
    ensures DiagnosticsOk(list + [d]) <==>
              DiagnosticOk(d) && !(list != [] && KeyLess(DiagnosticKey(d), DiagnosticKey(list[|list| - 1])))
  {
    var more := list + [d];
    assert more[|list|] == d;
    if DiagnosticsOk(more) && list != [] {
      assert more[|list| - 1] == list[|list| - 1];
      assert !KeyLess(DiagnosticKey(more[|list| - 1 + 1]), DiagnosticKey(more[|list| - 1]));
    }
  }

  lemma ReadNext(records: seq<Record>, i: nat, d: Document, d': Document)
    requires ReadSoFar(records, i, d) && i < |records|
    requires Prefix(d') == Prefix(d) + [records[i]]
    ensures ReadSoFar(records, i + 1, d')
  {
    assert records[..i + 1] == records[..i] + [records[i]];
  }

  lemma {:induction false} NodeRecordsAppend(nodes: seq<Node>, n: Node)
    ensures NodeRecords(nodes + [n]) == NodeRecords(nodes) + [NodeRecord(n)]
  {
  }

  lemma EdgeRecordsAppend(edges: seq<Edge>, e: Edge)
    ensures EdgeRecords(edges + [e]) == EdgeRecords(edges) + [EdgeRecord(e)]
  {
  }

  lemma DiagnosticRecordsAppend(ds: seq<Diagnostic>, d: Diagnostic)
    ensures DiagnosticRecords(ds + [d]) == DiagnosticRecords(ds) + [DiagnosticRecord(d)]
  {
  }

  lemma MetaExtends(records: seq<Record>, i: nat, st: Reader, d: Document) returns (d': Document)
    requires Reading(records, i, st, d) && i < |records| && records[i].Meta? && Accept(st, records[i]).Ok?
    ensures Reading(records, i + 1, Accept(st, records[i]).value, d')
  {
    d' := Document(records[i].project, [], [], []);
    assert records[..1] == [records[0]] == Prefix(d');
  }

  lemma NodeExtends(records: seq<Record>, i: nat, st: Reader, d: Document) returns (d': Document)
    requires Reading(records, i, st, d) && i < |records| && records[i].NodeRecord? && Accept(st, records[i]).Ok?
    ensures Reading(records, i + 1, Accept(st, records[i]).value, d')
  {
    hide LineFits, ListOk, HoldsItems, DiagnosticsOk, KeyLess, NodeOk, EdgeOk, DiagnosticOk, ReadSoFar;
    var node := records[i].node;
    d' := d.(nodes := d.nodes + [node]);
    ItemAccepted(st.nodes, st.previousNode, d.nodes, node, NodeOk, NodeId, NodeKey, MAX_NODES);
    NodeRecordsAppend(d.nodes, node);
    ReadNext(records, i, d, d');
  }

  lemma EdgeExtends(records: seq<Record>, i: nat, st: Reader, d: Document) returns (d': Document)
    requires Reading(records, i, st, d) && i < |records| && records[i].EdgeRecord? && Accept(st, records[i]).Ok?
    ensures Reading(records, i + 1, Accept(st, records[i]).value, d')
  {
    hide LineFits, ListOk, HoldsItems, DiagnosticsOk, KeyLess, NodeOk, EdgeOk, DiagnosticOk, ReadSoFar;
    var edge := records[i].edge;
    d' := d.(edges := d.edges + [edge]);
    ItemAccepted(st.edges, st.previousEdge, d.edges, edge, EdgeOk, EdgeId, EdgeKey, MAX_EDGES);
    EdgeRecordsAppend(d.edges, edge);
    ReadNext(records, i, d, d');
  }

  lemma DiagnosticExtends(records: seq<Record>, i: nat, st: Reader, d: Document) returns (d': Document)
    requires Reading(records, i, st, d) && i < |records| && records[i].DiagnosticRecord? && Accept(st, records[i]).Ok?
    ensures Reading(records, i + 1, Accept(st, records[i]).value, d')
  {
    hide LineFits, ListOk, HoldsItems, DiagnosticsOk, KeyLess, NodeOk, EdgeOk, DiagnosticOk, ReadSoFar;
    var diagnostic := records[i].diagnostic;
    d' := d.(diagnostics := d.diagnostics + [diagnostic]);
    DiagnosticAccepted(d.diagnostics, diagnostic);
    DiagnosticRecordsAppend(d.diagnostics, diagnostic);
    ReadNext(records, i, d, d');
  }

  /** Every record the reader accepts extends the document read so far. */
  lemma AcceptExtends(records: seq<Record>, i: nat, st: Reader, d: Document) returns (d': Document)
    requires Reading(records, i, st, d) && i < |records| && Accept(st, records[i]).Ok?
    ensures Reading(records, i + 1, Accept(st, records[i]).value, d')
  {
    match records[i]
    case Meta(_, _) => d' := MetaExtends(records, i, st, d);
    case NodeRecord(_) => d' := NodeExtends(records, i, st, d);
    case EdgeRecord(_) => d' := EdgeExtends(records, i, st, d);
    case DiagnosticRecord(_) => d' := DiagnosticExtends(records, i, st, d);
    case Summary(_, _, _) => d' := d;
  }

  // ---------- refusals ----------

  /** After the summary nothing may follow. */
  lemma NothingAfterSummary(records: seq<Record>, i: nat, st: Reader, d: Document, whole: Document)
    requires Reading(records, i, st, d) && st.metaSeen && st.summarySeen && records == Records(whole)
    ensures i == |records|
    ensures whole == d && (st.expected == (|d.nodes|, |d.edges|, |d.diagnostics|))
  {
    hide Holds, ReadSoFar;
    PartOf(records, i - 1, d, whole);
    RecordAt(whole, i - 1);
  }

  /** A refused record rules out every document. */
  lemma RefusalIsRight(records: seq<Record>, i: nat, st: Reader, d: Document, whole: Document)
    requires Reading(records, i, st, d) && i < |records| && Accept(st, records[i]).Err?
    requires records == Records(whole)
    ensures !DocumentOk(whole)
  {
    if !st.metaSeen {
      RecordAt(whole, 0);
    } else if st.summarySeen {
      NothingAfterSummary(records, i, st, d, whole);
    } else if DocumentOk(whole) {
      PartOf(records, i, d, whole);
      NextAccepted(records, i, st, d, whole);
    }
  }

  lemma OkNodeFits(n: Node)
    requires NodeOk(n)
    ensures LineFits(NodeRecord(n))
  {
  }

  lemma OkEdgeFits(e: Edge)
    requires EdgeOk(e)
    ensures LineFits(EdgeRecord(e))
  {
  }

  lemma OkDiagnosticFits(d: Diagnostic)
    requires DiagnosticOk(d)
    ensures LineFits(DiagnosticRecord(d))
  {
  }

  lemma NextAccepted(records: seq<Record>, i: nat, st: Reader, d: Document, whole: Document)
    requires i < |records| && DocumentOk(whole)
    requires Holds(st, d) && PhaseOf(st.phase, d) && st.metaSeen && !st.summarySeen
    requires i == 1 + |d.nodes| + |d.edges| + |d.diagnostics| && records[i] == Section(whole, i)
    requires d.nodes <= whole.nodes && d.edges <= whole.edges && d.diagnostics <= whole.diagnostics
    requires d.edges != [] ==> d.nodes == whole.nodes
    requires d.diagnostics != [] ==> d.nodes == whole.nodes && d.edges == whole.edges
    ensures Accept(st, records[i]).Ok?
  {
    hide LineFits, ListOk, HoldsItems, KeyLess, NodeOk, EdgeOk, DiagnosticOk, DiagnosticsOk, ReferencesOk;
    match records[i]
    case NodeRecord(node) =>
      assert d.nodes + [node] <= whole.nodes;
      ListOkPrefix(d.nodes + [node], whole.nodes, NodeOk, NodeId, NodeKey, MAX_NODES);
      ItemRefused(st.nodes, st.previousNode, d.nodes, node, NodeOk, NodeId, NodeKey, MAX_NODES);
      OkNodeFits(node);
    case EdgeRecord(edge) =>
      assert d.nodes == whole.nodes;
      assert d.edges + [edge] <= whole.edges;
      ListOkPrefix(d.edges + [edge], whole.edges, EdgeOk, EdgeId, EdgeKey, MAX_EDGES);
      ItemRefused(st.edges, st.previousEdge, d.edges, edge, EdgeOk, EdgeId, EdgeKey, MAX_EDGES);
      OkEdgeFits(edge);
    case DiagnosticRecord(diagnostic) =>
      assert d.nodes == whole.nodes && d.edges == whole.edges;
      assert d.diagnostics + [diagnostic] <= whole.diagnostics;
      DiagnosticsOkPrefix(d.diagnostics + [diagnostic], whole.diagnostics);
      DiagnosticAccepted(d.diagnostics, diagnostic);
      OkDiagnosticFits(diagnostic);
    case Summary(_, _, _) =>
  }

  /** A stream that ends before its summary spells nothing. */
  lemma NothingWithoutSummary(records: seq<Record>, st: Reader, d: Document, whole: Document)
    requires Reading(records, |records|, st, d) && !(st.metaSeen && st.summarySeen)
    ensures records != Records(whole)
  {
    if records == Records(whole) {
      if st.metaSeen {
        PartOf(records, |records|, d, whole);
      }
    }
  }

  // ---------- the result ----------

  /** The snapshot holds exactly the document's items, indexed. */
  ghost predicate IsSnapshotOf(s: Snapshot, d: Document) {
    && Valid(s) && s.project == d.project && s.diagnostics == d.diagnostics
    && |s.nodes| == |d.nodes| && (forall n :: n in d.nodes ==> n.id in s.nodes && s.nodes[n.id] == n)
    && |s.edges| == |d.edges| && (forall e :: e in d.edges ==> e.id in s.edges && s.edges[e.id] == e)
  }

  predicate ReachableOk(project: Project, nodes: map<Id, Node>) {
    && (HasEntry(project.entryNodeId) ==>
          project.entryNodeId.value in nodes && project.entryNodeId.value in project.reachable)
    && (forall i :: 0 <= i < |project.reachable| ==> project.reachable[i] in nodes)
    && (forall i, j :: 0 <= i < j < |project.reachable| ==> project.reachable[i] != project.reachable[j])
  }

  method CheckReachable(project: Project, nodes: map<Id, Node>) returns (ok: bool)
    ensures ok == ReachableOk(project, nodes)
  {
    if HasEntry(project.entryNodeId) && project.entryNodeId.value !in nodes {
      return false;
    }
    var reachableIds: set<Id> := {};
    for i := 0 to |project.reachable|
      invariant reachableIds == set id | id in project.reachable[..i]
      invariant forall k :: 0 <= k < i ==> project.reachable[k] in nodes
      invariant forall k, l :: 0 <= k < l < i ==> project.reachable[k] != project.reachable[l]
    {
      var id := project.reachable[i];
      assert project.reachable[..i + 1] == project.reachable[..i] + [id];
      if id !in nodes {
        return false;
      }
      if id in reachableIds {
        var k :| 0 <= k < i && project.reachable[..i][k] == id;
        assert project.reachable[k] == project.reachable[i];
        return false;
      }
      forall k | 0 <= k < i
        ensures project.reachable[k] != id
      {
        assert project.reachable[k] in project.reachable[..i];
      }
      reachableIds := reachableIds + {id};
    }
    assert project.reachable[..|project.reachable|] == project.reachable;
    return !HasEntry(project.entryNodeId) || project.entryNodeId.value in reachableIds;
  }

  lemma NodesHeld(st: Reader, d: Document, id: Id)
    requires HoldsItems(st.nodes, st.previousNode, d.nodes, NodeId)
    ensures IsNode(d, id) <==> id in st.nodes
  {
    if IsNode(d, id) {
      var n :| n in d.nodes && n.id == id;
      var i :| 0 <= i < |d.nodes| && d.nodes[i] == n;
      assert NodeId(d.nodes[i]) in st.nodes;
    }
    if id in st.nodes {
      assert st.nodes[id] in d.nodes && NodeId(st.nodes[id]) == id;
    }
  }

  /** With all items read, the last checks are those on the references. */
  lemma ReferencesChecked(st: Reader, d: Document)
    requires Holds(st, d)
    ensures DocumentOk(d) <==> NoDangling(st.nodes, st.edges) && ReachableOk(st.project, st.nodes) && LineFits(SummaryOf(d))
  {
    hide ListOk, DiagnosticsOk, LineFits;
    forall id
      ensures IsNode(d, id) <==> id in st.nodes
    {
      NodesHeld(st, d, id);
    }
    EdgeEndsChecked(st, d);
    ReachableChecked(d, st.nodes);
    hide HoldsItems, IsNode, NoDangling, ReachableOk, Distinct;
  }

  lemma ReachableChecked(d: Document, nodes: map<Id, Node>)
    requires forall id :: IsNode(d, id) <==> id in nodes
    ensures ReachableOk(d.project, nodes) <==>
              && (HasEntry(d.project.entryNodeId) ==>
                    IsNode(d, d.project.entryNodeId.value) && d.project.entryNodeId.value in d.project.reachable)
              && Distinct(d.project.reachable)
              && (forall id :: id in d.project.reachable ==> IsNode(d, id))
  {
    hide IsNode;
  }

  lemma EdgeEndsChecked(st: Reader, d: Document)
    requires HoldsItems(st.edges, st.previousEdge, d.edges, EdgeId)
    requires forall id :: IsNode(d, id) <==> id in st.nodes
    ensures NoDangling(st.nodes, st.edges) <==> forall e :: e in d.edges ==> IsNode(d, e.source) && IsNode(d, e.target)
  {
    if NoDangling(st.nodes, st.edges) {
      forall e | e in d.edges
        ensures e.source in st.nodes && e.target in st.nodes
      {
        var i :| 0 <= i < |d.edges| && d.edges[i] == e;
        assert EdgeId(d.edges[i]) in st.edges;
      }
    }
  }

  lemma HeldItems<T>(items: map<Id, T>, previous: Option<T>, list: seq<T>, id: T -> Id, x: T)
    requires HoldsItems(items, previous, list, id) && x in list
    ensures id(x) in items && items[id(x)] == x
  {
    var i :| 0 <= i < |list| && list[i] == x;
  }

  lemma HeldSnapshot(st: Reader, d: Document, s: Snapshot)
    requires Holds(st, d) && Indexed(s) && NoDangling(st.nodes, st.edges)
    requires s.nodes == st.nodes && s.edges == st.edges && s.project == st.project && s.diagnostics == st.diagnostics
    ensures IsSnapshotOf(s, d)
  {
    hide ListOk, DiagnosticsOk, Indexed;
    forall n | n in d.nodes
      ensures n.id in s.nodes && s.nodes[n.id] == n
    {
      HeldItems(st.nodes, st.previousNode, d.nodes, NodeId, n);
    }
    forall e | e in d.edges
      ensures e.id in s.edges && s.edges[e.id] == e
    {
      HeldItems(st.edges, st.previousEdge, d.edges, EdgeId, e);
    }
    assert forall id :: id in s.nodes ==> NodeId(s.nodes[id]) == id;
    assert forall id :: id in s.edges ==> EdgeId(s.edges[id]) == id;
  }

  ghost predicate Spells(records: seq<Record>, d: Document) {
    records == Records(d) && DocumentOk(d)
  }

  /** Reads a stream: it succeeds exactly on the streams some document in good order is written as,
      and the result is that document. */
  method FromNdjson(records: seq<Record>) returns (r: Result<Snapshot>)
    ensures r.Ok? <==> exists d :: Spells(records, d)
    ensures forall d :: Spells(records, d) ==> r.Ok? && IsSnapshotOf(r.value, d)
  {
    hide *;
    var st := START;
    ghost var d := Document(START.project, [], [], []);
    StartReading(records, d);
    for i := 0 to |records|
      invariant Reading(records, i, st, d)
    {
      var next := Accept(st, records[i]);
      if next.Err? {
        NoneSpelledByRefusal(records, i, st, d);
        return Err(next.message);
      }
      d := AcceptExtends(records, i, st, d);
      st := next.value;
    }
    if !st.metaSeen || !st.summarySeen {
      NoneSpelledWithoutSummary(records, st, d);
      return Err("NDJSON requires meta and summary records");
    }
    OnlyReading(records, st, d);
    if st.expected != (|st.nodes|, |st.edges|, |st.diagnostics|) {
      return Err("summary counts do not match records");
    }
    var rebuilt := RebuildIndexes(Snapshot(st.project, st.nodes, st.edges, st.diagnostics, map[], map[], {}));
    if rebuilt.Err? {
      return rebuilt;
    }
    var reachable := CheckReachable(st.project, st.nodes);
    if !reachable {
      return Err("project entry or reachable nodes are unknown");
    }
    HeldSnapshot(st, d, rebuilt.value);
    return rebuilt;
  }

  lemma StartReading(records: seq<Record>, d: Document)
    ensures Reading(records, 0, START, d)
  {
  }

  lemma NoneSpelledByRefusal(records: seq<Record>, i: nat, st: Reader, d: Document)
    requires Reading(records, i, st, d) && i < |records| && Accept(st, records[i]).Err?
    ensures forall whole :: !Spells(records, whole)
  {
    forall whole
      ensures !Spells(records, whole)
    {
      if records == Records(whole) {
        RefusalIsRight(records, i, st, d, whole);
      }
    }
  }

  lemma NoneSpelledWithoutSummary(records: seq<Record>, st: Reader, d: Document)
    requires Reading(records, |records|, st, d) && !(st.metaSeen && st.summarySeen)
    ensures forall whole :: !Spells(records, whole)
  {
    forall whole
      ensures !Spells(records, whole)
    {
      NothingWithoutSummary(records, st, d, whole);
    }
  }

  lemma HeldCounts(st: Reader, d: Document)
    requires Holds(st, d)
    ensures (|st.nodes|, |st.edges|, |st.diagnostics|) == (|d.nodes|, |d.edges|, |d.diagnostics|)
  {
  }

  lemma RecordsOf(d: Document)
    ensures Records(d) == Prefix(d) + [Summary(|d.nodes|, |d.edges|, |d.diagnostics|)]
  {
  }

  /** With the whole stream read, it spells the document read or nothing. */
  lemma OnlyReading(records: seq<Record>, st: Reader, d: Document)
    requires Reading(records, |records|, st, d) && st.metaSeen && st.summarySeen
    ensures Holds(st, d)
    ensures forall whole :: Spells(records, whole) ==> whole == d
    ensures Spells(records, d) <==>
              && st.expected == (|st.nodes|, |st.edges|, |st.diagnostics|)
              && NoDangling(st.nodes, st.edges) && ReachableOk(st.project, st.nodes)
  {
    hide Holds, DocumentOk, ReachableOk, NoDangling, Records, LineFits, ReadSoFar;
    HeldCounts(st, d);
    ReferencesChecked(st, d);
    forall whole | Spells(records, whole)
      ensures whole == d && st.expected == (|d.nodes|, |d.edges|, |d.diagnostics|)
    {
      NothingAfterSummary(records, |records|, st, d, whole);
    }
    if st.expected == (|st.nodes|, |st.edges|, |st.diagnostics|) {
      assert records[|records| - 1] == SummaryOf(d);
      WholeStream(records, d);
    }
  }

  lemma WholeStream(records: seq<Record>, d: Document)
    requires records != [] && ReadSoFar(records, |records| - 1, d) && records[|records| - 1] == SummaryOf(d)
    ensures records == Records(d)
  {
    hide Prefix;
    var i := |records|;
    assert records == records[..i - 1] + [records[i - 1]];
    RecordsOf(d);
  }

  // ---------- from the analyzer to the host ----------

  /** The analyzer's graph: its dictionaries in insertion order, the entry and what it reaches. */
  datatype Graph = Graph(nodes: seq<Node>, edges: seq<Edge>, diagnostics: seq<Diagnostic>,
                         entry: Option<Id>, reachable: seq<Id>)

  function ToDict(g: Graph): Document {
    Document(Project(".", ["python"], g.entry, g.reachable),
             SortBy(g.nodes, NodeKey), SortBy(g.edges, EdgeKey), SortBy(g.diagnostics, DiagnosticKey))
  }

  ghost predicate DistinctIds<T>(items: seq<T>, id: T -> Id) {
    forall i, j :: 0 <= i < j < |items| ==> id(items[i]) != id(items[j])
  }

  predicate InOrder(range: Option<Range>) {
    range.Some? ==>
      var r := range.value;
      r.startLine < r.endLine || (r.startLine == r.endLine && r.startColumn <= r.endColumn)
  }

  predicate BoundaryOk(n: Node) {
    && n.external == (n.kind == "external") && n.unresolved == (n.kind == "unresolved")
    && (if n.external || n.unresolved then n.reason.Some? && n.reason.value != "" else n.reason.None?)
  }

  /** The document before sorting. */
  function Unsorted(g: Graph): Document {
    Document(Project(".", ["python"], g.entry, g.reachable), g.nodes, g.edges, g.diagnostics)
  }

  /** What the analyzer checks of its own graph before writing it. */
  ghost predicate Checked(g: Graph) {
    && DistinctIds(g.nodes, NodeId) && DistinctIds(g.edges, EdgeId) && ReferencesOk(Unsorted(g))
    && (forall n :: n in g.nodes ==> InOrder(n.range) && BoundaryOk(n))
    && (forall e :: e in g.edges ==> InOrder(e.range)) && (forall d :: d in g.diagnostics ==> InOrder(d.range))
  }

  /** What the host demands besides: counts, lines, kinds, ids and positions. */
  ghost predicate Fits(g: Graph) {
    && |g.nodes| <= MAX_NODES && |g.edges| <= MAX_EDGES
    && LineFits(Meta(SCHEMA, Unsorted(g).project)) && LineFits(SummaryOf(Unsorted(g)))
    && (forall n :: n in g.nodes ==> NodeOk(n)) && (forall e :: e in g.edges ==> EdgeOk(e))
    && (forall d :: d in g.diagnostics ==> DiagnosticOk(d))
  }

  lemma {:induction false} InsertDistinct<T(!new)>(x: T, items: seq<T>, id: T -> Id, key: T -> seq<string>)
    requires DistinctIds(items, id) && forall y :: y in items ==> id(y) != id(x)
    ensures DistinctIds(Insert(x, items, key), id)
  {
    if items != [] && KeyLess(key(items[0]), key(x)) {
      InsertDistinct(x, items[1..], id, key);
      var rest := Insert(x, items[1..], key);
      forall j | 0 <= j < |rest|
        ensures id(rest[j]) != id(items[0])
      {
        assert rest[j] in rest;
        if rest[j] != x {
          var k :| 0 <= k < |items[1..]| && items[1..][k] == rest[j];
          assert items[k + 1] == rest[j];
        } else {
          assert items[0] in items;
        }
      }
    }
  }

  lemma {:induction false} SortedOk<T(!new)>(items: seq<T>, ok: T -> bool, id: T -> Id, key: T -> seq<string>, max: nat)
    requires DistinctIds(items, id)
    ensures |SortBy(items, key)| == |items|
    ensures ListOk(SortBy(items, key), ok, id, key, max) <==> |items| <= max && forall x :: x in items ==> ok(x)
  {
    var sorted := SortBy(items, key);
    assert |sorted| == |items| by {
      assert |multiset(sorted)| == |multiset(items)|;
    }
    SortBySorted(items, key);
    SortDistinct(items, id, key);
    SameMembers(items, sorted);
    assert forall i :: 0 <= i < |sorted| ==> sorted[i] in items;
  }

  lemma SameMembers<T>(a: seq<T>, b: seq<T>)
    requires multiset(a) == multiset(b)
    ensures forall x :: x in a <==> x in b
  {
    assert forall x :: x in a <==> x in multiset(a);
  }

  lemma {:induction false} SortDistinct<T(!new)>(items: seq<T>, id: T -> Id, key: T -> seq<string>)
    requires DistinctIds(items, id)
    ensures DistinctIds(SortBy(items, key), id)
  {
    if items != [] {
      SortDistinct(items[1..], id, key);
      forall y | y in SortBy(items[1..], key)
        ensures id(y) != id(items[0])
      {
        var k :| 0 <= k < |items[1..]| && items[1..][k] == y;
        assert items[k + 1] == y;
      }
      InsertDistinct(items[0], SortBy(items[1..], key), id, key);
    }
  }

  /** A graph that passes the analyzer's own checks is written as a document the host accepts exactly if it fits. */
  lemma ToDictOk(g: Graph)
    requires Checked(g)
    ensures DocumentOk(ToDict(g)) <==> Fits(g)
  {
    hide KeyLess, ListOk, ReferencesOk, SortBy, DiagnosticsOk, NodeOk, EdgeOk, DiagnosticOk, LineFits, InOrder, BoundaryOk;
    var d := ToDict(g);
    SortedOk(g.nodes, NodeOk, NodeId, NodeKey, MAX_NODES);
    SortedOk(g.edges, EdgeOk, EdgeId, EdgeKey, MAX_EDGES);
    SortedDiagnosticsOk(g.diagnostics);
    SameReferences(Unsorted(g), d);
  }

  lemma SortedDiagnosticsOk(ds: seq<Diagnostic>)
    ensures |SortBy(ds, DiagnosticKey)| == |ds|
    ensures DiagnosticsOk(SortBy(ds, DiagnosticKey)) <==> forall d :: d in ds ==> DiagnosticOk(d)
  {
    hide DiagnosticOk, KeyLess, DiagnosticKey;
    var sorted := SortBy(ds, DiagnosticKey);
    assert |sorted| == |ds| by {
      assert |multiset(sorted)| == |multiset(ds)|;
    }
    SortBySorted(ds, DiagnosticKey);
    SameMembers(ds, sorted);
    assert forall i :: 0 <= i < |sorted| ==> sorted[i] in ds;
  }

  lemma SameReferences(plain: Document, d: Document)
    requires ReferencesOk(plain) && d.project == plain.project
    requires forall n :: n in d.nodes <==> n in plain.nodes
    requires forall e :: e in d.edges <==> e in plain.edges
    ensures ReferencesOk(d)
  {
    forall id
      ensures IsNode(d, id) <==> IsNode(plain, id)
    {
    }
    hide IsNode;
  }

  /** What the analyzer writes, the host reads back if it fits, and refuses otherwise: the same nodes, edges and
      diagnostics, the latter in the shared order. */
  method Transfer(g: Graph) returns (r: Result<Snapshot>)
    requires Checked(g)
    ensures r.Ok? <==> Fits(g)
    ensures r.Ok? ==>
              var s := r.value;
              && Valid(s) && s.project == Project(".", ["python"], g.entry, g.reachable)
              && |s.nodes| == |g.nodes| && (forall n :: n in g.nodes ==> n.id in s.nodes && s.nodes[n.id] == n)
              && |s.edges| == |g.edges| && (forall e :: e in g.edges ==> e.id in s.edges && s.edges[e.id] == e)
              && multiset(s.diagnostics) == multiset(g.diagnostics) && Sorted(s.diagnostics, DiagnosticKey)
  {
    hide DocumentOk, Fits, Checked, Records;
    var d := ToDict(g);
    ToDictOk(g);
    var stream := WriteNdjson(d);
    r := FromNdjson(stream);
    if DocumentOk(d) {
      assert Spells(stream, d);
      DocumentSorted(d);
      assert |multiset(d.nodes)| == |multiset(g.nodes)| && |multiset(d.edges)| == |multiset(g.edges)|;
    } else if r.Ok? {
      var whole :| Spells(stream, whole);
      OneDocument(d, whole);
      assert false;
    }
  }

  /** A stream is that of one document only. */
  lemma OneDocument(d: Document, whole: Document)
    requires Records(d) == Records(whole)
    ensures d == whole
  {
    var records := Records(d);
    RecordsOf(d);
    PartOf(records, |records| - 1, d, whole);
    RecordAt(whole, |records| - 1);
  }

  // ---------- short records ----------

  predicate Short(text: string) {
    |text| <= 64
  }

  predicate ShortOrNone(text: Option<string>) {
    text.Some? ==> Short(text.value)
  }

  lemma ShortText(key: string, text: string, max: nat)
    requires |key| <= 32 && Short(text) && max >= 1000
    ensures Small(Field(key, Text(text)), max)
  {
    TextAtMost(text);
  }

  lemma ShortOrNull(key: string, text: Option<string>)
    requires |key| <= 32 && ShortOrNone(text)
    ensures Small(Field(key, StringOrNull(text)), 1002)
  {
    if text.Some? {
      ShortText(key, text.value, 1002);
    }
  }

  lemma ShortList(key: string, texts: seq<string>)
    requires |key| <= 32 && |texts| <= 1 && forall i :: 0 <= i < |texts| ==> Short(texts[i])
    ensures Small(Field(key, TextList(texts)), 1002)
  {
    if texts != [] {
      ShortText(key, texts[0], 1000);
    }
  }

  lemma ShortRest(key: string, b: bool)
    requires |key| <= 32
    ensures Small(Field(key, Bool(b)), 1002) && Small(Field(key, Null), 1002)
  {
  }

  lemma ShortDigit(key: string, n: nat)
    requires |key| <= 32 && n < 10
    ensures Small(Field(key, Number(n)), 1000)
  {
  }

  /** A file node with short names. */
  lemma ShortNodeFits(n: Node)
    requires Short(n.id) && Short(n.kind) && Short(n.name) && Short(n.qualifiedName) && ShortOrNone(n.path)
    requires n.docstring.None? && n.language.None? && n.range.None? && n.reason.None? && n.signature.None? && n.modifiers == []
    ensures LineFits(NodeRecord(n))
  {
    hide Small, Dumps, TextList, StringOrNull;
    ShortText("id", n.id, 1002);
    ShortText("kind", n.kind, 1002);
    ShortText("name", n.name, 1002);
    ShortText("qualifiedName", n.qualifiedName, 1002);
    ShortOrNull("path", n.path);
    ShortOrNull("docstring", None);
    ShortOrNull("language", None);
    ShortOrNull("reason", None);
    ShortOrNull("signature", None);
    ShortList("modifiers", []);
    ShortRest("range", false);
    ShortRest("external", n.external);
    ShortRest("unresolved", n.unresolved);
    ObjectAtMost("node", NodeJson(n).fields, 1002);
    ShortText("record", "node", 18_228);
    ObjectAtMost("", [Field("node", NodeJson(n)), Field("record", Text("node"))], 18_228);
  }

  lemma ShortProjectFits(p: Project)
    requires ShortOrNone(p.entryNodeId) && Short(p.root) && |p.reachable| <= 1 && |p.languages| <= 1
    requires forall i :: 0 <= i < |p.reachable| ==> Short(p.reachable[i])
    requires forall i :: 0 <= i < |p.languages| ==> Short(p.languages[i])
    ensures LineFits(Meta(SCHEMA, p))
  {
    hide Small, Dumps, TextList, StringOrNull;
    ShortOrNull("entryNodeId", p.entryNodeId);
    ShortList("entryReachableNodeIds", p.reachable);
    ShortList("languages", p.languages);
    ShortText("root", p.root, 1002);
    ObjectAtMost("project", ProjectJson(p).fields, 1002);
    ShortText("record", "meta", 5_610);
    ShortText("schemaVersion", SCHEMA, 5_610);
    ObjectAtMost("", [Field("project", ProjectJson(p)), Field("record", Text("meta")), Field("schemaVersion", Text(SCHEMA))], 5_610);
  }

  lemma ShortDiagnosticFits(d: Diagnostic)
    requires Short(d.code) && Short(d.message) && Short(d.severity) && ShortOrNone(d.path) && d.range.None?
    ensures LineFits(DiagnosticRecord(d))
  {
    hide Small, Dumps, StringOrNull;
    ShortText("code", d.code, 1002);
    ShortText("message", d.message, 1002);
    ShortText("severity", d.severity, 1002);
    ShortOrNull("path", d.path);
    ShortRest("range", false);
    ObjectAtMost("diagnostic", DiagnosticJson(d).fields, 1002);
    ShortText("record", "diagnostic", 7_012);
    ObjectAtMost("", [Field("diagnostic", DiagnosticJson(d)), Field("record", Text("diagnostic"))], 7_012);
  }

  lemma ShortSummaryFits(d: Document)
    requires |d.nodes| < 10 && |d.edges| < 10 && |d.diagnostics| < 10
    ensures LineFits(SummaryOf(d))
  {
    hide Small, Dumps;
    ShortDigit("diagnosticCount", |d.diagnostics|);
    ShortDigit("edgeCount", |d.edges|);
    ShortDigit("nodeCount", |d.nodes|);
    ShortText("record", "summary", 1000);
    ObjectAtMost("", [Field("diagnosticCount", Number(|d.diagnostics|)), Field("edgeCount", Number(|d.edges|)),
                      Field("nodeCount", Number(|d.nodes|)), Field("record", Text("summary"))], 1000);
  }

  // ---------- what the analyzer writes and the host refuses ----------

  lemma LongNodeLine(n: Node)
    requires n.docstring.Some? && |n.docstring.value| >= MAX_LINE
    ensures !LineFits(NodeRecord(n))
  {
    hide Quoted;
    QuotedLength(n.docstring.value);
    FieldOfObject(NodeJson(n), 0);
    FieldOfObject(Object([Field("node", NodeJson(n)), Field("record", Text("node"))]), 0);
  }

  /** A module whose docstring has a million characters. */
  function LongDocstring(): Graph {
    var docstring := seq(MAX_LINE, i requires 0 <= i < MAX_LINE => 'a');
    Graph([Node("n_0123456789abcdef01234567", "module", Some("python"), "m", "m", Some("m.py"), None, None, Some(docstring),
                false, false, None, [])], [], [], None, [])
  }

  /** Such a module passes the analyzer's checks and makes the host refuse the whole graph. */
  lemma LongDocstringRefused()
    ensures Checked(LongDocstring()) && !Fits(LongDocstring())
  {
    hide LineFits;
    var g := LongDocstring();
    LongNodeLine(g.nodes[0]);
    assert g.nodes[0] in g.nodes;
  }

  /** The reachable ids share one line: with the ids the analyzer gives, some 33 thousand are too many. */
  lemma ManyReachableRefused(g: Graph)
    requires |g.reachable| >= 33_334 && forall i :: 0 <= i < |g.reachable| ==> |g.reachable[i]| == 26
    ensures !Fits(g)
  {
    hide Quoted, Dumps;
    var project := Unsorted(g).project;
    var ids := TextList(g.reachable);
    forall i | 0 <= i < |ids.items|
      ensures |Dumps(ids.items[i])| >= 28
    {
      TextLength(g.reachable[i]);
    }
    ItemsLength(ids.items, 28);
    ListText(ids);
    MetaLine(project);
  }

  lemma TextLength(s: string)
    ensures |Dumps(Text(s))| >= |s| + 2
  {
    QuotedLength(s);
  }

  lemma ListText(j: Json)
    requires j.List?
    ensures |Dumps(j)| == |DumpsItems(j.items)| + 2
  {
  }

  lemma MetaLine(project: Project)
    ensures |LineOf(Meta(SCHEMA, project))| >= |Dumps(TextList(project.reachable))|
  {
    hide Quoted;
    FieldOfObject(ProjectJson(project), 1);
    var meta := Object([Field("project", ProjectJson(project)), Field("record", Text("meta")), Field("schemaVersion", Text(SCHEMA))]);
    FieldOfObject(meta, 0);
  }
}
