/** What holds of every displayed graph. */
module VisibleGraphFacts {
  import opened Wrappers
  import opened EdgeAggregation
  import opened VisibleNodes
  import opened VisibleGraph

  // ---------- every end and every parent is shown ----------

  ghost predicate Shows(visible: Visible, id: string) {
    (exists n :: n in visible.nodes && n.id == id) || HasGroup(visible.groups, id)
  }

  /** No external symbol that is grouped away is the collapsed group standing for another candidate, unless its id
      is also that of a group, which is shown. */
  ghost predicate GroupedAwayStandForNothing(p: Plan, collapsed: set<string>)
    requires Acyclic(p.sc.byId) && p.candidates <= p.sc.byId.Keys
  {
    forall id :: id in p.candidates && id !in p.external ==>
                   var group := Standing(p.sc.byId, p.sc.byId[id], collapsed, p.candidates);
                   group in p.external ==> group in p.external.Values
  }

  lemma StandingIsCandidate(byId: Index, id: string, collapsed: set<string>, candidates: set<string>)
    requires Acyclic(byId) && id in candidates && id in byId && byId[id].id == id
    ensures Standing(byId, byId[id], collapsed, candidates) in candidates
  {
    FirstInMeans(AncestorsFrom(byId, byId[id].parent), collapsed * candidates);
  }

  lemma CandidateIsShown(doc: Document, filters: Filters, entryMode: bool, collapsed: set<string>, p: Plan, visible: Visible, id: string)
    requires Projects(doc, filters, entryMode, collapsed, p, visible)
    requires id in p.candidates && id in p.representative.Values && id !in p.external
    ensures Shows(visible, id)
  {
    hide Drawn, Grouping, CandidatesOf, Representatives, KeptNodes;
    IndexedIsNode(doc.nodes, id);
    KeptNodeIds(p.sc.byId, doc.nodes, p.representative.Values, p.external, id);
  }

  lemma RepresentativeCases(doc: Document, collapsed: set<string>, p: Plan, id: string)
    requires Acyclic(p.sc.byId) && p.sc.byId == ById(doc.nodes) && Represents(doc, collapsed, p) && id in p.candidates
    ensures id in p.external ==> p.representative[id] == p.external[id] && p.external[id] in p.external.Values
    ensures id !in p.external ==> p.representative[id] == Standing(p.sc.byId, p.sc.byId[id], collapsed, p.candidates)
    ensures id !in p.external ==> p.representative[id] in p.candidates
    ensures p.representative[id] in p.representative.Values
  {
    IndexedIsNode(doc.nodes, id);
    StandingIsCandidate(p.sc.byId, id, collapsed, p.candidates);
  }

  /** Every candidate is represented by a node or group that is shown, exactly when no external symbol that
      is grouped away stands for another candidate. */
  lemma RepresentativesShownIff(doc: Document, filters: Filters, entryMode: bool, collapsed: set<string>, p: Plan, visible: Visible)
    requires Projects(doc, filters, entryMode, collapsed, p, visible)
    ensures (forall id :: id in p.candidates ==> Shows(visible, p.representative[id])) <==>
            GroupedAwayStandForNothing(p, collapsed)
  {
    hide Drawn, Grouping, CandidatesOf, Representatives, Standing, KeptNodes;
    if GroupedAwayStandForNothing(p, collapsed) {
      forall id | id in p.candidates
        ensures Shows(visible, p.representative[id])
      {
        ShownWhenNothingStands(doc, filters, entryMode, collapsed, p, visible, id);
      }
    }
    if id :| id in p.candidates && id !in p.external &&
             Standing(p.sc.byId, p.sc.byId[id], collapsed, p.candidates) in p.external.Keys - p.external.Values {
      RepresentativeCases(doc, collapsed, p, id);
      var away := p.representative[id];
      KeptNodeIds(p.sc.byId, doc.nodes, p.representative.Values, p.external, away);
      forall g | g in visible.groups
        ensures g.id != away
      {
        GroupHasMember(p, g);
      }
      assert !Shows(visible, away);
    }
  }

  lemma GroupHasMember(p: Plan, g: Group)
    requires p.external.Keys <= p.sc.byId.Keys && GroupFits(p.sc.byId, p.external, g.id, g)
    ensures g.id in p.external.Values
  {
    var id :| id in MembersOf(p.external, g.id);
  }

  lemma ShownWhenNothingStands(doc: Document, filters: Filters, entryMode: bool, collapsed: set<string>, p: Plan, visible: Visible, id: string)
    requires Projects(doc, filters, entryMode, collapsed, p, visible) && GroupedAwayStandForNothing(p, collapsed)
    requires id in p.candidates
    ensures Shows(visible, p.representative[id])
  {
    hide Drawn, Grouping, CandidatesOf, Representatives, Standing, KeptNodes;
    RepresentativeCases(doc, collapsed, p, id);
    if id !in p.external && p.representative[id] !in p.external {
      CandidateIsShown(doc, filters, entryMode, collapsed, p, visible, p.representative[id]);
    }
  }

  lemma {:induction false} FirstRepresentedIsValue(ids: seq<string>, representative: map<string, string>)
    ensures FirstRepresented(ids, representative) != "" ==> FirstRepresented(ids, representative) in representative.Values
  {
    if ids != [] && !(ids[0] in representative && representative[ids[0]] != "") {
      FirstRepresentedIsValue(ids[1..], representative);
    }
  }

  lemma ProjectedIsValue(sc: Scope, representative: map<string, string>, id: string)
    requires Acyclic(sc.byId) && Projected(sc, representative, id) != ""
    ensures Projected(sc, representative, id) in representative.Values
  {
    FirstRepresentedIsValue(AncestorsOf(sc.byId, id), representative);
  }

  lemma EdgeIsDrawn(p: Plan, visible: Visible, doc: Document, e: Edge) returns (part: Edge)
    requires Acyclic(p.sc.byId) && p.external.Keys <= p.sc.byId.Keys && Displays(doc, p, visible) && e in visible.edges
    ensures e.id in p.aggregated && p.aggregated[e.id] == e
    ensures StandsFor(p.sc, p.representative, e.id, e, Parts(p.sc, p.representative, p.allowed, e.id))
    ensures Parts(p.sc, p.representative, p.allowed, e.id) != []
    ensures part == Parts(p.sc, p.representative, p.allowed, e.id)[0]
    ensures EndsOf(p.sc, p.representative, part) == Some((e.source, e.target)) && part.kind == e.kind
  {
    hide StandsFor, EndsOf, Parts, GroupFits, KeptNodes, CountOver;
    var i :| 0 <= i < |visible.edges| && visible.edges[i] == e;
    var key := p.order[i];
    assert KeyDrawn(p.sc, p.representative, p.allowed, p.aggregated, key);
    assert StandsFor(p.sc, p.representative, key, e, Parts(p.sc, p.representative, p.allowed, key));
    StandsForMeans(p.sc, p.representative, key, e, Parts(p.sc, p.representative, p.allowed, key));
    part := Parts(p.sc, p.representative, p.allowed, key)[0];
  }

  lemma StandsForMeans(sc: Scope, representative: map<string, string>, key: string, r: Edge, parts: seq<Edge>)
    requires Acyclic(sc.byId) && StandsFor(sc, representative, key, r, parts)
    ensures parts != [] && r.id == key
    ensures EndsOf(sc, representative, parts[0]) == Some((r.source, r.target)) && r.kind == parts[0].kind
  {
  }

  /** Both ends of every displayed edge are shown. */
  lemma EndpointsShown(doc: Document, filters: Filters, entryMode: bool, collapsed: set<string>, p: Plan, visible: Visible, e: Edge)
    requires Projects(doc, filters, entryMode, collapsed, p, visible) && GroupedAwayStandForNothing(p, collapsed)
    requires e in visible.edges
    ensures Shows(visible, e.source) && Shows(visible, e.target)
  {
    hide Drawn, Grouping, CandidatesOf, Representatives, KeptNodes, StandsFor, Parts, Projected, Shows, GroupedAwayStandForNothing;
    var part := EdgeIsDrawn(p, visible, doc, e);
    ProjectedIsValue(p.sc, p.representative, part.source);
    ProjectedIsValue(p.sc, p.representative, part.target);
    ValueIsShown(doc, filters, entryMode, collapsed, p, visible, e.source);
    ValueIsShown(doc, filters, entryMode, collapsed, p, visible, e.target);
  }

  lemma ValueIsShown(doc: Document, filters: Filters, entryMode: bool, collapsed: set<string>, p: Plan, visible: Visible, value: string)
    requires Projects(doc, filters, entryMode, collapsed, p, visible) && GroupedAwayStandForNothing(p, collapsed)
    requires value in p.representative.Values
    ensures Shows(visible, value)
  {
    hide Displays, Grouping, CandidatesOf, Shows, GroupedAwayStandForNothing, Standing;
    var id :| id in p.representative && p.representative[id] == value;
    ShownWhenNothingStands(doc, filters, entryMode, collapsed, p, visible, id);
  }

  /** A shown node hangs under its nearest shown ancestor, and under nothing when none is shown. */
  lemma ParentsShown(doc: Document, filters: Filters, entryMode: bool, collapsed: set<string>, p: Plan, visible: Visible, n: Node)
    requires Projects(doc, filters, entryMode, collapsed, p, visible) && GroupedAwayStandForNothing(p, collapsed)
    requires n in visible.nodes
    ensures n.parent != "" ==> Shows(visible, n.parent) &&
                               IsNearest(AncestorsOf(p.sc.byId, n.id), p.representative.Values, n.parent)
    ensures n.parent == "" ==> forall id :: id in AncestorsOf(p.sc.byId, n.id) && id != "" ==> id !in p.representative.Values
  {
    hide Drawn, Grouping, CandidatesOf, Representatives, GroupedAwayStandForNothing, Shows, AncestorsOf;
    KeptIsReparented(p.sc.byId, doc.nodes, p.representative.Values, p.external, n);
    FirstInMeans(AncestorsOf(p.sc.byId, n.id), p.representative.Values);
    if n.parent != "" {
      ValueIsShown(doc, filters, entryMode, collapsed, p, visible, n.parent);
    } else if FirstIn(AncestorsOf(p.sc.byId, n.id), p.representative.Values).Some? {
      AncestorsAreNamed(p.sc.byId, n.id, "");
    }
  }

  lemma {:induction false} KeptIsReparented(byId: Index, nodes: seq<Node>, visible: set<string>, external: map<string, string>, n: Node)
    requires Acyclic(byId) && n in KeptNodes(byId, nodes, visible, external)
    ensures exists original :: original in nodes && n == Reparented(byId, original, visible) && original.id == n.id
  {
    var last := |nodes| - 1;
    if n in KeptNodes(byId, nodes[..last], visible, external) {
      KeptIsReparented(byId, nodes[..last], visible, external, n);
    } else {
      assert nodes[last] in nodes;
    }
  }

  lemma AncestorsAreNamed(byId: Index, id: string, ancestor: string)
    requires Acyclic(byId) && ancestor in AncestorsOf(byId, id)
    ensures ancestor != ""
  {
    FromIsNamed(byId, ParentOf(byId, id), ancestor);
  }

  lemma {:induction false} FromIsNamed(byId: Index, parent: string, ancestor: string)
    requires Acyclic(byId) && ancestor in AncestorsFrom(byId, parent)
    ensures ancestor != ""
    decreases Height(byId, parent)
  {
    if ancestor != parent {
      FromIsNamed(byId, byId[parent].parent, ancestor);
    }
  }

  /** With external symbols that contain nothing, none of them stands for another node. */
  lemma ChildlessExternals(p: Plan, collapsed: set<string>)
    requires Acyclic(p.sc.byId) && p.candidates <= p.sc.byId.Keys
    requires p.external == Grouping(p.sc.byId, p.exact, p.candidates)
    requires forall id :: id in p.sc.byId ==> p.sc.byId[id].id == id
    requires forall id :: id in p.sc.byId && p.sc.byId[id].parent in p.sc.byId ==>
                            p.sc.byId[p.sc.byId[id].parent].kind != "external_package"
    ensures GroupedAwayStandForNothing(p, collapsed)
  {
    forall id | id in p.candidates && id !in p.external
      ensures Standing(p.sc.byId, p.sc.byId[id], collapsed, p.candidates) !in p.external
    {
      var ancestors := AncestorsFrom(p.sc.byId, p.sc.byId[id].parent);
      FirstInMeans(ancestors, collapsed * p.candidates);
      var group := FirstIn(ancestors, collapsed * p.candidates);
      if group.Some? && group.value in p.sc.byId {
        AncestorIsNotExternal(p.sc.byId, p.sc.byId[id].parent, group.value);
      }
    }
  }

  lemma {:induction false} AncestorIsNotExternal(byId: Index, parent: string, ancestor: string)
    requires Acyclic(byId) && ancestor in AncestorsFrom(byId, parent) && ancestor in byId
    requires forall id :: id in byId && byId[id].parent in byId ==> byId[byId[id].parent].kind != "external_package"
    requires parent in byId ==> byId[parent].kind != "external_package"
    ensures byId[ancestor].kind != "external_package"
    decreases Height(byId, parent)
  {
    if ancestor != parent {
      AncestorIsNotExternal(byId, byId[parent].parent, ancestor);
    }
  }

  /** A candidate inside a collapsed group is shown all the same exactly when it is the nearest collapsed
      group of some other candidate: a group nested in a collapsed group stays visible. */
  lemma NestedGroupStaysShown(doc: Document, collapsed: set<string>, p: Plan, id: string)
    requires Acyclic(p.sc.byId) && p.sc.byId == ById(doc.nodes) && Represents(doc, collapsed, p)
    requires id in p.candidates && id !in p.external && id !in p.external.Values
    requires Standing(p.sc.byId, p.sc.byId[id], collapsed, p.candidates) != id
    ensures id in p.representative.Values <==>
            exists other :: && other in p.candidates && other != id && other !in p.external
                            && Standing(p.sc.byId, p.sc.byId[other], collapsed, p.candidates) == id
  {
    hide Grouping, CandidatesOf, Standing;
    if id in p.representative.Values {
      var other :| other in p.representative && p.representative[other] == id;
      RepresentativeCases(doc, collapsed, p, other);
    }
    if other :| other in p.candidates && other !in p.external && Standing(p.sc.byId, p.sc.byId[other], collapsed, p.candidates) == id {
      RepresentativeCases(doc, collapsed, p, other);
    }
  }

  // ---------- one displayed edge, one relation between two nodes ----------

  function FirstBar(s: string): nat {
    if s == "" || s[0] == '|' then 0 else 1 + FirstBar(s[1..])
  }

  lemma {:induction false} SplitAtBar(a: string, rest: string)
    requires '|' !in a
    ensures FirstBar(a + "|" + rest) == |a|
  {
    var s := a + "|" + rest;
    if a != "" {
      SplitAtBar(a[1..], rest);
      assert s[1..] == a[1..] + "|" + rest;
    }
  }

  /** Kind and ends can be read back from the key, when kinds and sources have no bar. */
  lemma KeyDistinguishes(kind1: string, source1: string, target1: string, kind2: string, source2: string, target2: string)
    requires '|' !in kind1 && '|' !in source1 && '|' !in kind2 && '|' !in source2
    requires Key(kind1, source1, target1) == Key(kind2, source2, target2)
    ensures kind1 == kind2 && source1 == source2 && target1 == target2
  {
    var key := Key(kind1, source1, target1);
    var rest1, rest2 := source1 + "|" + target1, source2 + "|" + target2;
    assert key == kind1 + "|" + rest1 && key == kind2 + "|" + rest2;
    SplitAtBar(kind1, rest1);
    SplitAtBar(kind2, rest2);
    assert kind1 == key[..|kind1|] && kind2 == key[..|kind2|];
    assert rest1 == key[|kind1| + 1..] && rest2 == key[|kind2| + 1..];
    SplitAtBar(source1, target1);
    SplitAtBar(source2, target2);
    assert source1 == rest1[..|source1|] && source2 == rest2[..|source2|];
    assert target1 == rest1[|source1| + 1..] && target2 == rest2[|source2| + 1..];
  }

  lemma {:induction false} PartsAreDrawn(sc: Scope, representative: map<string, string>, edges: seq<Edge>, key: string, e: Edge)
    requires Acyclic(sc.byId)
    ensures e in Parts(sc, representative, edges, key) <==> e in edges && DrawnAs(sc, representative, key, e)
  {
    hide DrawnAs;
    if edges != [] {
      var last := |edges| - 1;
      PartsAreDrawn(sc, representative, edges[..last], key, e);
      assert edges == edges[..last] + [edges[last]];
    }
  }

  /** A displayed edge stands for exactly the allowed edges of its kind drawn between its ends. */
  lemma DisplayedEdgeMeans(doc: Document, p: Plan, visible: Visible, r: Edge, e: Edge)
    requires Acyclic(p.sc.byId) && p.external.Keys <= p.sc.byId.Keys && Displays(doc, p, visible) && r in visible.edges
    requires forall x :: x in p.allowed ==> '|' !in x.kind
    requires forall value :: value in p.representative.Values ==> '|' !in value
    ensures Aggregates(r, Parts(p.sc, p.representative, p.allowed, r.id))
    ensures e in Parts(p.sc, p.representative, p.allowed, r.id) <==>
            e in p.allowed && e.kind == r.kind && EndsOf(p.sc, p.representative, e) == Some((r.source, r.target))
  {
    hide Displays, EndsOf, Parts, Key, Aggregates;
    var part := EdgeIsDrawn(p, visible, doc, r);
    var parts := Parts(p.sc, p.representative, p.allowed, r.id);
    assert part in parts;
    PartsAreDrawn(p.sc, p.representative, p.allowed, r.id, part);
    PartsAreDrawn(p.sc, p.representative, p.allowed, r.id, e);
    if e in p.allowed && EndsOf(p.sc, p.representative, e).Some? {
      var ends := EndsOf(p.sc, p.representative, e).value;
      EndsAreValues(p.sc, p.representative, e);
      EndsAreValues(p.sc, p.representative, part);
      if Key(e.kind, ends.0, ends.1) == Key(part.kind, r.source, r.target) {
        KeyDistinguishes(e.kind, ends.0, ends.1, part.kind, r.source, r.target);
      }
    }
  }

  lemma EndsAreValues(sc: Scope, representative: map<string, string>, e: Edge)
    requires Acyclic(sc.byId)
    ensures var ends := EndsOf(sc, representative, e);
            ends.Some? ==> ends.value.0 in representative.Values && ends.value.1 in representative.Values
  {
    hide Projected;
    if EndsOf(sc, representative, e).Some? {
      ProjectedIsValue(sc, representative, e.source);
      ProjectedIsValue(sc, representative, e.target);
    }
  }

  // ---------- counts ----------

  lemma {:induction false} CountsAddUp(order: seq<string>, aggregated: map<string, Edge>, edges: seq<Edge>)
    requires |edges| == |order|
    requires forall i :: 0 <= i < |order| ==> order[i] in aggregated && edges[i] == aggregated[order[i]]
    ensures (forall key :: key in order ==> key in aggregated) && Total(edges) == CountOver(order, aggregated)
  {
    if order != [] {
      var last := |order| - 1;
      CountsAddUp(order[..last], aggregated, edges[..last]);
      assert order == order[..last] + [order[last]];
    }
  }

  /** The displayed edges together count what the drawn edges of the document count. */
  lemma CountsConserved(doc: Document, p: Plan, visible: Visible)
    requires Acyclic(p.sc.byId) && p.external.Keys <= p.sc.byId.Keys && Displays(doc, p, visible)
    ensures Total(visible.edges) == Total(DrawnEdges(p.sc, p.representative, p.allowed))
  {
    CountsAddUp(p.order, p.aggregated, visible.edges);
  }

  // ---------- the order of the document's edges does not matter ----------

  lemma LastCounts(edges: seq<Edge>, e: Edge)
    requires edges != []
    ensures multiset(edges)[e] == multiset(edges[..|edges| - 1])[e] + if edges[|edges| - 1] == e then 1 else 0
  {
    assert edges == edges[..|edges| - 1] + [edges[|edges| - 1]];
  }

  lemma {:induction false} AllowedMultiplicity(filters: Filters, edges: seq<Edge>, e: Edge)
    ensures multiset(AllowedEdges(filters, edges))[e] == if Allowed(filters, e) then multiset(edges)[e] else 0
  {
    hide Allowed;
    if edges != [] {
      LastCounts(edges, e);
      AllowedMultiplicity(filters, edges[..|edges| - 1], e);
    }
  }

  lemma {:induction false} PartsMultiplicity(sc: Scope, representative: map<string, string>, edges: seq<Edge>, key: string, e: Edge)
    requires Acyclic(sc.byId)
    ensures multiset(Parts(sc, representative, edges, key))[e] ==
            if DrawnAs(sc, representative, key, e) then multiset(edges)[e] else 0
  {
    hide DrawnAs;
    if edges != [] {
      LastCounts(edges, e);
      PartsMultiplicity(sc, representative, edges[..|edges| - 1], key, e);
    }
  }

  lemma AllowedOfPermutation(filters: Filters, a: seq<Edge>, b: seq<Edge>)
    requires multiset(a) == multiset(b)
    ensures multiset(AllowedEdges(filters, a)) == multiset(AllowedEdges(filters, b))
  {
    hide Allowed;
    forall e
      ensures multiset(AllowedEdges(filters, a))[e] == multiset(AllowedEdges(filters, b))[e]
    {
      AllowedMultiplicity(filters, a, e);
      AllowedMultiplicity(filters, b, e);
    }
  }

  lemma PartsOfPermutation(sc: Scope, representative: map<string, string>, a: seq<Edge>, b: seq<Edge>, key: string)
    requires Acyclic(sc.byId) && multiset(a) == multiset(b)
    ensures multiset(Parts(sc, representative, a, key)) == multiset(Parts(sc, representative, b, key))
  {
    hide DrawnAs;
    forall e
      ensures multiset(Parts(sc, representative, a, key))[e] == multiset(Parts(sc, representative, b, key))[e]
    {
      PartsMultiplicity(sc, representative, a, key, e);
      PartsMultiplicity(sc, representative, b, key, e);
    }
  }

  lemma {:induction false} FromEdgesMeans(sc: Scope, edges: seq<Edge>, id: string)
    requires Acyclic(sc.byId)
    ensures id in FromEdges(sc, edges) <==> exists e :: e in edges && id in FromEnd(sc, e.source) + FromEnd(sc, e.target)
  {
    hide FromEnd;
    if edges != [] {
      var last := |edges| - 1;
      FromEdgesMeans(sc, edges[..last], id);
      assert edges == edges[..last] + [edges[last]];
    }
  }

  lemma SameElements(a: seq<Edge>, b: seq<Edge>)
    requires multiset(a) == multiset(b)
    ensures forall e :: e in a <==> e in b
  {
    forall e
      ensures e in a <==> e in b
    {
      assert e in a <==> e in multiset(a);
    }
  }

  lemma CandidatesOfPermutation(sc: Scope, nodes: seq<Node>, a: seq<Edge>, b: seq<Edge>)
    requires Acyclic(sc.byId) && multiset(a) == multiset(b)
    ensures CandidatesOf(sc, nodes, a) == CandidatesOf(sc, nodes, b)
  {
    hide FromEnd, FromNodes, FromEdges;
    SameElements(a, b);
    forall id
      ensures id in FromEdges(sc, a) <==> id in FromEdges(sc, b)
    {
      FromEdgesMeans(sc, a, id);
      FromEdgesMeans(sc, b, id);
    }
  }

  lemma ScopeOfPermutation(doc1: Document, doc2: Document, filters: Filters, entryMode: bool, p1: Plan, p2: Plan)
    requires doc2 == doc1.(edges := doc2.edges) && multiset(doc1.edges) == multiset(doc2.edges)
    requires Scopes(doc1, filters, entryMode, p1) && Scopes(doc2, filters, entryMode, p2)
    ensures p1.sc == p2.sc && multiset(p1.allowed) == multiset(p2.allowed)
  {
    SameElements(doc1.edges, doc2.edges);
    assert ArcsOf(doc1.edges) == ArcsOf(doc2.edges);
    AllowedOfPermutation(filters, doc1.edges, doc2.edges);
    if entryMode && doc1.entryKey != "" {
      assert p1.sc.entryIds.value == p2.sc.entryIds.value;
    }
  }

  /** Documents that list the same edges in different orders display the same nodes, and for every key
      edges that say the same, in the same places when no id has a bar. */
  lemma EdgeOrderDoesNotMatter(doc1: Document, doc2: Document, filters: Filters, entryMode: bool, collapsed: set<string>,
                               p1: Plan, visible1: Visible, p2: Plan, visible2: Visible, key: string)
    requires doc2 == doc1.(edges := doc2.edges) && multiset(doc1.edges) == multiset(doc2.edges)
    requires Projects(doc1, filters, entryMode, collapsed, p1, visible1)
    requires Projects(doc2, filters, entryMode, collapsed, p2, visible2)
    requires p1.exact == p2.exact
    ensures visible1.nodes == visible2.nodes && (key in p1.aggregated <==> key in p2.aggregated)
    ensures key in p1.aggregated ==>
              var r1, r2 := p1.aggregated[key], p2.aggregated[key];
              && r1.count == r2.count && r1.resolution == r2.resolution && r1.confidence == r2.confidence
              && r1.diff == r2.diff && r1.boundaryReason == r2.boundaryReason
              && multiset(r1.locations) == multiset(r2.locations)
  {
    hide ById, IsEntryScope, CandidatesOf, Grouping, Representatives, KeptNodes, Parts, Aggregates, EndsOf, GroupFits, HasGroup, CountOver, DrawnEdges, Lists;
    assert Acyclic(p1.sc.byId) && Acyclic(p2.sc.byId);
    ScopeOfPermutation(doc1, doc2, filters, entryMode, p1, p2);
    CandidatesOfPermutation(p1.sc, doc1.nodes, p1.allowed, p2.allowed);
    assert p1.representative == p2.representative;
    PartsOfPermutation(p1.sc, p1.representative, p1.allowed, p2.allowed, key);
    var parts1, parts2 := Parts(p1.sc, p1.representative, p1.allowed, key), Parts(p1.sc, p1.representative, p2.allowed, key);
    assert KeyDrawn(p1.sc, p1.representative, p1.allowed, p1.aggregated, key);
    assert KeyDrawn(p2.sc, p2.representative, p2.allowed, p2.aggregated, key);
    assert |multiset(parts1)| == |parts1| && |multiset(parts2)| == |parts2|;
    if key in p1.aggregated {
      OrderDoesNotMatter(p1.aggregated[key], parts1, p2.aggregated[key], parts2);
    }
  }
}
