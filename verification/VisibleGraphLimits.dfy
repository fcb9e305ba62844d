/** Documents on which the display is not what one would expect. */
module VisibleGraphLimits {
  import opened Wrappers
  import opened EdgeAggregation
  import opened VisibleNodes
  import opened VisibleGraph
  import opened VisibleGraphFacts

  function PlainNode(id: string, kind: string, name: string, parent: string): Node {
    Node(id, kind, id, name, parent, false, Unchanged)
  }

  function PlainEdge(id: string, source: string, target: string): Edge {
    Edge(id, "calls", source, target, Resolved, Exact, 1, Unchanged, [], None)
  }

  lemma IndexOfTwo(a: Node, b: Node)
    requires a.id != b.id
    ensures ById([a, b]) == map[a.id := a, b.id := b]
  {
    assert [a, b][..1] == [a] && [a][..0] == [];
    assert ById([a]) == map[a.id := a];
  }

  lemma AncestorsOfTwo(byId: Index, a: Node, b: Node)
    requires Acyclic(byId) && a.id in byId && byId[a.id] == a && a.id != "" && a.parent == ""
    requires b.parent == "" || b.parent == a.id
    ensures AncestorsFrom(byId, a.parent) == []
    ensures AncestorsFrom(byId, b.parent) == if b.parent == "" then [] else [a.id]
  {
    assert AncestorsFrom(byId, "") == [];
    assert b.parent != "" ==> AncestorsFrom(byId, b.parent) == [a.id] + AncestorsFrom(byId, byId[a.id].parent);
  }

  lemma EligibleTwo(sc: Scope, a: Node, b: Node)
    requires Acyclic(sc.byId) && Eligible(sc, a) && Eligible(sc, b)
    ensures FromNodes(sc, [a, b]) == AddedBy(sc, a) + AddedBy(sc, b)
  {
    hide AddedBy, Eligible;
    assert [a, b][..1] == [a] && [a][..0] == [];
    assert FromNodes(sc, [a]) == FromNodes(sc, []) + AddedBy(sc, a);
  }

  /** A document of two nodes, the second perhaps inside the first, with both kinds switched on. */
  lemma TwoNodes(a: Node, b: Node, p: Plan, doc: Document, filters: Filters, collapsed: set<string>)
    requires doc.nodes == [a, b] && a.id != b.id && a.parent == "" && (b.parent == "" || b.parent == a.id)
    requires a.id != "" && !a.test && !b.test && a.kind in filters.nodes && b.kind in filters.nodes && !filters.changedOnly
    requires Scopes(doc, filters, false, p) && Represents(doc, collapsed, p)
    ensures p.sc.byId == map[a.id := a, b.id := b]
    ensures p.candidates == {a.id, b.id}
    ensures AncestorsFrom(p.sc.byId, a.parent) == []
    ensures AncestorsFrom(p.sc.byId, b.parent) == if b.parent == "" then [] else [a.id]
  {
    hide ById, AncestorsFrom, FromNodes, FromEdges, AllowedEdges, Grouping, Representatives, Acyclic;
    IndexOfTwo(a, b);
    AncestorsOfTwo(p.sc.byId, a, b);
    EligibleTwo(p.sc, a, b);
    assert AddedBy(p.sc, a) == {a.id};
    assert AddedBy(p.sc, b) == {b.id} + if b.parent == "" then {} else {a.id};
  }

  // ---------- an external symbol that is a collapsed group ----------

  /** An external symbol, a function inside it, and nothing between them. */
  function ExternalParent(): Document {
    Document([PlainNode("e", "external_package", "numpy.linalg", ""), PlainNode("c", "function", "c", "e")], [], "", None)
  }

  function AllKinds(): Filters {
    Filters({"external_package", "function"}, {"calls"}, true, false)
  }

  /** With the symbol collapsed, the function is represented by the symbol, which the grouping by package has removed. */
  lemma GroupedGroupHides(p: Plan, visible: Visible)
    requires Projects(ExternalParent(), AllKinds(), false, {"e"}, p, visible) && p.exact == {}
    ensures "c" in p.candidates && p.representative["c"] == "e" && !Shows(visible, "e")
    ensures !GroupedAwayStandForNothing(p, {"e"})
  {
    var doc := ExternalParent();
    TwoNodes(doc.nodes[0], doc.nodes[1], p, doc, AllKinds(), {"e"});
    var byId := p.sc.byId;
    assert FirstIn(["e"], {"e"} * p.candidates) == Some("e");
    assert p.external.Keys == {"e"};
    assert Standing(byId, byId["c"], {"e"}, p.candidates) == "e";
    var g := GroupId(byId["e"]);
    assert g[0] == 'g' && p.external["e"] == g && p.external.Values == {g};
    assert !GroupedAwayStandForNothing(p, {"e"});
    KeptNodeIds(byId, doc.nodes, p.representative.Values, p.external, "e");
    forall h | h in visible.groups
      ensures h.id != "e"
    {
      GroupHasMember(p, h);
    }
  }

  // ---------- ids with a bar ----------

  /** Two functions that call each other; one id is the other's with a bar. */
  function BarredCycle(): Document {
    Document([PlainNode("a", "function", "a", ""), PlainNode("a|a", "function", "a", "")],
             [PlainEdge("1", "a", "a|a"), PlainEdge("2", "a|a", "a")], "", None)
  }

  lemma BarredRepresentatives(p: Plan)
    requires Scopes(BarredCycle(), AllKinds(), false, p) && Represents(BarredCycle(), {}, p)
    ensures p.representative == map["a" := "a", "a|a" := "a|a"]
  {
    hide CandidatesOf, ById, AncestorsFrom, AllowedEdges;
    var doc := BarredCycle();
    TwoNodes(doc.nodes[0], doc.nodes[1], p, doc, AllKinds(), {});
    assert p.external == map[];
  }

  lemma BarredEnds(p: Plan)
    requires Scopes(BarredCycle(), AllKinds(), false, p) && Represents(BarredCycle(), {}, p)
    ensures var doc := BarredCycle();
            && p.allowed == doc.edges
            && EndsOf(p.sc, p.representative, doc.edges[0]) == Some(("a", "a|a"))
            && EndsOf(p.sc, p.representative, doc.edges[1]) == Some(("a|a", "a"))
  {
    hide Represents, ById, Acyclic, FirstRepresented;
    var doc := BarredCycle();
    BarredRepresentatives(p);
    assert doc.edges[..1] == [doc.edges[0]] && [doc.edges[0]][..0] == [];
    assert AllowedEdges(AllKinds(), [doc.edges[0]]) == [doc.edges[0]];
  }

  lemma BarredKeys()
    ensures Key("calls", "a", "a|a") == Key("calls", "a|a", "a") == "calls|a|a|a"
  {
  }

  lemma BarredDrawn(sc: Scope, representative: map<string, string>)
    requires Acyclic(sc.byId)
    requires EndsOf(sc, representative, BarredCycle().edges[0]) == Some(("a", "a|a"))
    requires EndsOf(sc, representative, BarredCycle().edges[1]) == Some(("a|a", "a"))
    ensures FirstDrawn(sc, representative, BarredCycle().edges) == ["calls|a|a|a"]
    ensures Total(DrawnEdges(sc, representative, BarredCycle().edges)) == 2
  {
    hide EndsOf, Key;
    var edges := BarredCycle().edges;
    var first := edges[..1];
    BarredKeys();
    assert first == [edges[0]] && first[..0] == [];
    assert FirstDrawn(sc, representative, first) == ["calls|a|a|a"];
    assert DrawnEdges(sc, representative, first) == first;
    assert DrawnEdges(sc, representative, edges) == edges;
    assert Total(first) == 1;
  }

  lemma OneEdgeCounts(edges: seq<Edge>)
    requires |edges| == 1
    ensures Total(edges) == edges[0].count
  {
    assert edges[..0] == [] && Total(edges[..0]) == 0;
  }

  /** The two calls, in opposite directions, are displayed as one edge that counts both. */
  lemma KeysCanCoincide(p: Plan, visible: Visible)
    requires Projects(BarredCycle(), AllKinds(), false, {}, p, visible)
    ensures var doc := BarredCycle();
            EndsOf(p.sc, p.representative, doc.edges[0]) == Some(("a", "a|a")) &&
            EndsOf(p.sc, p.representative, doc.edges[1]) == Some(("a|a", "a"))
    ensures |visible.edges| == 1 && visible.edges[0].count == 2
  {
    hide EndsOf, Key, AllDrawn, CandidatesOf, Grouping, Representatives, AllowedEdges, ById, Acyclic, FirstDrawn, DrawnEdges, Total, KeptNodes, CountOver;
    BarredEnds(p);
    BarredDrawn(p.sc, p.representative);
    CountsConserved(BarredCycle(), p, visible);
    OneEdgeCounts(visible.edges);
  }
}
