/** The graph a user sees: filtered, with collapsed groups standing for what they contain, external
    symbols grouped by package, and the edges projected onto what is left. */
module VisibleGraph {
  import opened Wrappers
  import opened Reachability
  import opened EdgeAggregation
  import opened VisibleNodes

  /** The external symbols of one package, shown as one node. */
  datatype Group = Group(id: string, packageName: string, symbols: nat, diff: Diff)

  datatype Visible = Visible(nodes: seq<Node>, groups: seq<Group>, edges: seq<Edge>)

  // ---------- entry mode ----------

  function ArcsOf(edges: seq<Edge>): set<(string, string)> {
    set e | e in edges :: (e.source, e.target)
  }

  ghost predicate IsEntryScope(doc: Document, ids: set<string>) {
    if doc.entryReachableIds.Some? then ids == doc.entryReachableIds.value
    else forall id :: id in ids <==> Reaches(ArcsOf(doc.edges), doc.entryKey, id)
  }

  method EntryReachable(doc: Document) returns (ids: set<string>)
    ensures IsEntryScope(doc, ids)
  {
    if doc.entryReachableIds.Some? {
      return doc.entryReachableIds.value;
    }
    ghost var arcs := ArcsOf(doc.edges);
    ids := {doc.entryKey};
    var frontier := {doc.entryKey};
    ReachesSelf(arcs, doc.entryKey);
    ghost var all := {doc.entryKey} + (set e | e in doc.edges :: e.target);
    while frontier != {}
      invariant frontier <= ids <= all && doc.entryKey in ids
      invariant forall id :: id in ids ==> Reaches(arcs, doc.entryKey, id)
      invariant forall e :: e in doc.edges && e.source in ids - frontier ==> e.target in ids
      decreases all - ids, frontier
    {
      var next := set e | e in doc.edges && e.source in frontier :: e.target;
      forall id | id in next
        ensures Reaches(arcs, doc.entryKey, id)
      {
        var e :| e in doc.edges && e.source in frontier && e.target == id;
        assert (e.source, e.target) in arcs;
        ReachesStep(arcs, doc.entryKey, e.source, id);
      }
      ghost var before := frontier;
      frontier := next - ids;
      ids := ids + frontier;
    }
    forall id | Reaches(arcs, doc.entryKey, id)
      ensures id in ids
    {
      assert Closed(arcs, ids);
      ClosedKeepsReachable(arcs, ids, doc.entryKey, id);
    }
  }

  // ---------- external packages ----------

  function BeforeDot(s: string): string {
    if s == "" || s[0] == '.' then "" else [s[0]] + BeforeDot(s[1..])
  }

  function PackageOf(n: Node): string {
    if BeforeDot(n.qualifiedName) == "" then n.title else BeforeDot(n.qualifiedName)
  }

  function GroupId(n: Node): string {
    "group:external:" + PackageOf(n)
  }

  predicate IsGrouped(byId: Index, exact: set<string>, id: string) {
    id in byId && byId[id].kind == "external_package" && id !in exact
  }

  function Grouping(byId: Index, exact: set<string>, candidates: set<string>): map<string, string> {
    map id | id in candidates && IsGrouped(byId, exact, id) :: GroupId(byId[id])
  }

  function MembersOf(external: map<string, string>, group: string): (members: set<string>)
    ensures members <= external.Keys
  {
    set id | id in external && external[id] == group
  }

  /** What all agree on, or else "modified". */
  ghost predicate SharedDiff(byId: Index, members: set<string>, d: Diff)
    requires members <= byId.Keys
  {
    || (forall id :: id in members ==> byId[id].diff == d)
    || (d == Modified && exists a, b :: a in members && b in members && byId[a].diff != byId[b].diff)
  }

  ghost predicate GroupFits(byId: Index, external: map<string, string>, id: string, g: Group)
    requires external.Keys <= byId.Keys
  {
    var members := MembersOf(external, id);
    && g.id == id == "group:external:" + g.packageName && members != {}
    && g.symbols == |members| && SharedDiff(byId, members, g.diff)
  }

  ghost predicate GroupsFit(byId: Index, external: map<string, string>, groups: map<string, Group>)
    requires external.Keys <= byId.Keys
  {
    && groups.Keys == external.Values
    && forall id :: id in groups ==> GroupFits(byId, external, id, groups[id])
  }

  lemma OneMoreMember(external: map<string, string>, id: string, g: string)
    requires id !in external
    ensures external[id := g].Values == external.Values + {g}
    ensures MembersOf(external[id := g], g) == MembersOf(external, g) + {id}
    ensures forall other :: other != g ==> MembersOf(external[id := g], other) == MembersOf(external, other)
    ensures id !in MembersOf(external, g) && (g !in external.Values ==> MembersOf(external, g) == {})
  {
    var external' := external[id := g];
    forall v
      ensures v in external'.Values <==> v in external.Values + {g}
    {
      if v in external.Values {
        var k :| k in external && external[k] == v;
        assert external'[k] == v;
      }
      assert external'[id] == g;
    }
  }

  lemma GroupFirst(byId: Index, external: map<string, string>, groups: map<string, Group>, id: string)
    requires external.Keys <= byId.Keys && GroupsFit(byId, external, groups)
    requires id in byId && id !in external && GroupId(byId[id]) !in groups
    ensures var g := GroupId(byId[id]);
            GroupsFit(byId, external[id := g], groups[g := Group(g, PackageOf(byId[id]), 1, byId[id].diff)])
  {
    hide MembersOf, PackageOf;
    var g := GroupId(byId[id]);
    OneMoreMember(external, id, g);
  }

  lemma GroupGrows(byId: Index, external: map<string, string>, groups: map<string, Group>, id: string)
    requires external.Keys <= byId.Keys && GroupsFit(byId, external, groups)
    requires id in byId && id !in external && GroupId(byId[id]) in groups
    ensures var g := GroupId(byId[id]);
            GroupsFit(byId, external[id := g],
                      groups[g := groups[g].(symbols := groups[g].symbols + 1, diff := JoinDiff(groups[g].diff, byId[id].diff))])
  {
    hide MembersOf, PackageOf, SharedDiff, JoinDiff;
    var g := GroupId(byId[id]);
    OneMoreMember(external, id, g);
    SharedDiffGrows(byId, MembersOf(external, g), groups[g].diff, id);
    assert groups.Keys + {g} == groups.Keys;
  }

  lemma SharedDiffGrows(byId: Index, members: set<string>, d: Diff, id: string)
    requires members <= byId.Keys && members != {} && id in byId && SharedDiff(byId, members, d)
    ensures SharedDiff(byId, members + {id}, JoinDiff(d, byId[id].diff))
  {
    var other :| other in members;
    if !(forall m :: m in members ==> byId[m].diff == d) {
      var a, b :| a in members && b in members && byId[a].diff != byId[b].diff;
      assert a in members + {id} && b in members + {id};
    } else {
      assert other in members + {id} && id in members + {id};
    }
  }

  method GroupExternals(byId: Index, exact: set<string>, candidates: set<string>)
    returns (external: map<string, string>, groups: map<string, Group>)
    requires candidates <= byId.Keys
    ensures external == Grouping(byId, exact, candidates) && GroupsFit(byId, external, groups)
  {
    external, groups := map[], map[];
    var rest := candidates;
    while rest != {}
      invariant rest <= candidates
      invariant external == Grouping(byId, exact, candidates - rest) && GroupsFit(byId, external, groups)
      decreases rest
    {
      hide GroupsFit, Grouping, IsGrouped, GroupId, PackageOf, JoinDiff;
      var id :| id in rest;
      OneMoreGrouping(byId, exact, candidates - rest, id);
      assert candidates - (rest - {id}) == candidates - rest + {id};
      if IsGrouped(byId, exact, id) {
        var node := byId[id];
        var g := GroupId(node);
        GroupKeys(byId, external, groups);
        if g in groups {
          GroupGrows(byId, external, groups, id);
          groups := groups[g := groups[g].(symbols := groups[g].symbols + 1, diff := JoinDiff(groups[g].diff, node.diff))];
        } else {
          GroupFirst(byId, external, groups, id);
          groups := groups[g := Group(g, PackageOf(node), 1, node.diff)];
        }
        external := external[id := g];
      }
      rest := rest - {id};
    }
  }

  lemma OneMoreGrouping(byId: Index, exact: set<string>, candidates: set<string>, id: string)
    requires id !in candidates
    ensures var external := Grouping(byId, exact, candidates);
            && id !in external && external.Keys <= byId.Keys
            && Grouping(byId, exact, candidates + {id}) ==
               if IsGrouped(byId, exact, id) then external[id := GroupId(byId[id])] else external
    ensures IsGrouped(byId, exact, id) ==> id in byId
  {
  }

  lemma GroupKeys(byId: Index, external: map<string, string>, groups: map<string, Group>)
    requires external.Keys <= byId.Keys && GroupsFit(byId, external, groups)
    ensures groups.Keys == external.Values
  {
  }

  // ---------- representatives ----------

  ghost function Representatives(byId: Index, external: map<string, string>, collapsed: set<string>,
                                 candidates: set<string>): map<string, string>
    requires Acyclic(byId) && candidates <= byId.Keys
  {
    map id | id in candidates ::
      if id in external then external[id] else Standing(byId, byId[id], collapsed, candidates)
  }

  method Represent(byId: Index, external: map<string, string>, collapsed: set<string>, candidates: set<string>)
    returns (representative: map<string, string>)
    requires Acyclic(byId) && candidates <= byId.Keys
    ensures representative == Representatives(byId, external, collapsed, candidates) && representative.Keys == candidates
  {
    representative := map[];
    var rest := candidates;
    while rest != {}
      invariant rest <= candidates && representative.Keys == candidates - rest
      invariant forall id :: id in representative ==>
                               representative[id] == Representatives(byId, external, collapsed, candidates)[id]
      decreases rest
    {
      var id :| id in rest;
      if id in external {
        representative := representative[id := external[id]];
      } else {
        var other := CollapsedRepresentative(byId, byId[id], collapsed, candidates);
        representative := representative[id := other];
      }
      rest := rest - {id};
    }
  }

  // ---------- nodes ----------

  /** The node as it is shown: under its nearest visible ancestor. */
  ghost function Reparented(byId: Index, n: Node, visible: set<string>): Node
    requires Acyclic(byId)
  {
    var parent := FirstIn(AncestorsOf(byId, n.id), visible);
    n.(parent := if parent.Some? then parent.value else "")
  }

  ghost function KeptNodes(byId: Index, nodes: seq<Node>, visible: set<string>, external: map<string, string>): seq<Node>
    requires Acyclic(byId)
  {
    if nodes == [] then []
    else
      var n := nodes[|nodes| - 1];
      KeptNodes(byId, nodes[..|nodes| - 1], visible, external) +
      if n.id in visible && n.id !in external then [Reparented(byId, n, visible)] else []
  }

  method KeepNodes(byId: Index, nodes: seq<Node>, visible: set<string>, external: map<string, string>)
    returns (kept: seq<Node>)
    requires Acyclic(byId)
    ensures kept == KeptNodes(byId, nodes, visible, external)
  {
    kept := [];
    for i := 0 to |nodes|
      invariant kept == KeptNodes(byId, nodes[..i], visible, external)
    {
      assert nodes[..i + 1][..i] == nodes[..i];
      var n := nodes[i];
      if n.id in visible && n.id !in external {
        var ancestors := ListAncestors(byId, n.id);
        var parent := FirstIn(ancestors, visible);
        kept := kept + [n.(parent := if parent.Some? then parent.value else "")];
      }
    }
    assert nodes[..|nodes|] == nodes;
  }

  lemma {:induction false} KeptNodeIds(byId: Index, nodes: seq<Node>, visible: set<string>, external: map<string, string>, id: string)
    requires Acyclic(byId)
    ensures (exists n :: n in KeptNodes(byId, nodes, visible, external) && n.id == id) <==>
            id in visible && id !in external && exists n :: n in nodes && n.id == id
  {
    if nodes != [] {
      var last := |nodes| - 1;
      KeptNodeIds(byId, nodes[..last], visible, external, id);
      var front := KeptNodes(byId, nodes[..last], visible, external);
      var all := KeptNodes(byId, nodes, visible, external);
      assert nodes == nodes[..last] + [nodes[last]];
      if n :| n in front && n.id == id {
        assert n in all;
      }
      if nodes[last].id == id && id in visible && id !in external {
        assert Reparented(byId, nodes[last], visible) in all;
      }
    }
  }

  // ---------- edges ----------

  ghost function FirstRepresented(ids: seq<string>, representative: map<string, string>): string {
    if ids == [] then ""
    else if ids[0] in representative && representative[ids[0]] != "" then representative[ids[0]]
    else FirstRepresented(ids[1..], representative)
  }

  /** The displayed node an end of an edge falls onto, or "". A hidden module or package falls onto the
      nearest ancestor that is represented. */
  ghost function Projected(sc: Scope, representative: map<string, string>, id: string): string
    requires Acyclic(sc.byId)
  {
    if id in representative && representative[id] != "" then representative[id]
    else if id !in sc.byId || !HiddenCompound(sc, sc.byId[id]) || !Scoped(sc, sc.byId[id]) then ""
    else FirstRepresented(AncestorsOf(sc.byId, id), representative)
  }

  method ProjectRepresentative(sc: Scope, representative: map<string, string>, id: string) returns (r: string)
    requires Acyclic(sc.byId)
    ensures r == Projected(sc, representative, id)
  {
    if id in representative && representative[id] != "" {
      return representative[id];
    }
    if id !in sc.byId || !HiddenCompound(sc, sc.byId[id]) || !Scoped(sc, sc.byId[id]) {
      return "";
    }
    var ancestors := ListAncestors(sc.byId, id);
    for i := 0 to |ancestors|
      invariant FirstRepresented(ancestors, representative) == FirstRepresented(ancestors[i..], representative)
    {
      assert ancestors[i..][1..] == ancestors[i + 1..];
      if ancestors[i] in representative && representative[ancestors[i]] != "" {
        return representative[ancestors[i]];
      }
    }
    return "";
  }

  /** Where an allowed edge is drawn, if it is. */
  ghost function EndsOf(sc: Scope, representative: map<string, string>, e: Edge): Option<(string, string)>
    requires Acyclic(sc.byId)
  {
    var source, target := Projected(sc, representative, e.source), Projected(sc, representative, e.target);
    if source == "" || target == "" || (source == target && e.source != e.target) then None
    else if e.kind == "contains" && (e.source !in representative || e.target !in representative) then None
    else Some((source, target))
  }

  function Key(kind: string, source: string, target: string): string {
    kind + "|" + source + "|" + target
  }

  ghost predicate DrawnAs(sc: Scope, representative: map<string, string>, key: string, e: Edge)
    requires Acyclic(sc.byId)
  {
    var ends := EndsOf(sc, representative, e);
    ends.Some? && Key(e.kind, ends.value.0, ends.value.1) == key
  }

  /** The edges drawn as the displayed edge `key`, in the document's order. */
  ghost function Parts(sc: Scope, representative: map<string, string>, edges: seq<Edge>, key: string): seq<Edge>
    requires Acyclic(sc.byId)
  {
    if edges == [] then []
    else
      var e := edges[|edges| - 1];
      Parts(sc, representative, edges[..|edges| - 1], key) + if DrawnAs(sc, representative, key, e) then [e] else []
  }

  /** The displayed edge has the ends, kind and count of what it stands for. */
  ghost predicate StandsFor(sc: Scope, representative: map<string, string>, key: string, r: Edge, parts: seq<Edge>)
    requires Acyclic(sc.byId)
  {
    && Aggregates(r, parts) && r.id == key
    && EndsOf(sc, representative, parts[0]) == Some((r.source, r.target)) && r.kind == parts[0].kind
  }

  ghost predicate KeyDrawn(sc: Scope, representative: map<string, string>, edges: seq<Edge>, aggregated: map<string, Edge>, key: string)
    requires Acyclic(sc.byId)
  {
    var parts := Parts(sc, representative, edges, key);
    && (key in aggregated <==> parts != [])
    && (key in aggregated ==> StandsFor(sc, representative, key, aggregated[key], parts))
  }

  ghost predicate AllDrawn(sc: Scope, representative: map<string, string>, edges: seq<Edge>, aggregated: map<string, Edge>)
    requires Acyclic(sc.byId)
  {
    forall key :: KeyDrawn(sc, representative, edges, aggregated, key)
  }

  lemma DrawNothing(sc: Scope, representative: map<string, string>, edges: seq<Edge>, e: Edge, aggregated: map<string, Edge>)
    requires Acyclic(sc.byId) && AllDrawn(sc, representative, edges, aggregated)
    requires EndsOf(sc, representative, e) == None
    ensures AllDrawn(sc, representative, edges + [e], aggregated)
  {
    hide EndsOf, StandsFor;
    assert (edges + [e])[..|edges|] == edges;
    forall key
      ensures KeyDrawn(sc, representative, edges + [e], aggregated, key)
    {
      assert KeyDrawn(sc, representative, edges, aggregated, key);
      assert Parts(sc, representative, edges + [e], key) == Parts(sc, representative, edges, key);
    }
  }

  /** Drawing one more edge: a new displayed edge, or one merged into an existing one. */
  lemma DrawOne(sc: Scope, representative: map<string, string>, edges: seq<Edge>, e: Edge, aggregated: map<string, Edge>)
    requires Acyclic(sc.byId) && AllDrawn(sc, representative, edges, aggregated)
    requires EndsOf(sc, representative, e).Some?
    ensures var ends := EndsOf(sc, representative, e).value;
            var key := Key(e.kind, ends.0, ends.1);
            AllDrawn(sc, representative, edges + [e],
                     aggregated[key := if key in aggregated then Merge(aggregated[key], e).(id := key)
                                       else e.(id := key, source := ends.0, target := ends.1)])
  {
    hide EndsOf, Key, Aggregates, Merge;
    var ends := EndsOf(sc, representative, e).value;
    var key := Key(e.kind, ends.0, ends.1);
    assert (edges + [e])[..|edges|] == edges;
    forall other
      ensures KeyDrawn(sc, representative, edges, aggregated, other)
      ensures other != key ==> Parts(sc, representative, edges + [e], other) == Parts(sc, representative, edges, other)
    {
    }
    var before := Parts(sc, representative, edges, key);
    assert Parts(sc, representative, edges + [e], key) == before + [e];
    if key in aggregated {
      var current := aggregated[key];
      OneMorePart(current, before, e);
      MergeKeeps(current, e);
      assert before != [] && (before + [e])[0] == before[0];
    } else {
      assert before + [e] == [e];
      OnePart(e, e.(id := key, source := ends.0, target := ends.1));
    }
  }

  lemma MergeKeeps(current: Edge, e: Edge)
    ensures var r := Merge(current, e);
            r.id == current.id && r.kind == current.kind && r.source == current.source && r.target == current.target
    ensures Merge(current, e).(id := current.id) == Merge(current, e)
  {
  }

  // ---------- counts ----------

  ghost function CountOver(order: seq<string>, aggregated: map<string, Edge>): int
    requires forall key :: key in order ==> key in aggregated
  {
    if order == [] then 0 else CountOver(order[..|order| - 1], aggregated) + aggregated[order[|order| - 1]].count
  }

  /** The displayed edges in the order of their first parts. */
  ghost function FirstDrawn(sc: Scope, representative: map<string, string>, edges: seq<Edge>): seq<string>
    requires Acyclic(sc.byId)
  {
    if edges == [] then []
    else
      var e, before := edges[|edges| - 1], FirstDrawn(sc, representative, edges[..|edges| - 1]);
      var ends := EndsOf(sc, representative, e);
      if ends.None? || Key(e.kind, ends.value.0, ends.value.1) in before then before
      else before + [Key(e.kind, ends.value.0, ends.value.1)]
  }

  ghost predicate Lists(order: seq<string>, aggregated: map<string, Edge>) {
    && (forall key :: key in order <==> key in aggregated)
    && forall i, j :: 0 <= i < j < |order| ==> order[i] != order[j]
  }

  lemma {:induction false} CountElsewhere(order: seq<string>, aggregated: map<string, Edge>, key: string, e: Edge)
    requires (forall k :: k in order ==> k in aggregated) && key !in order
    ensures CountOver(order, aggregated[key := e]) == CountOver(order, aggregated)
  {
    if order != [] {
      CountElsewhere(order[..|order| - 1], aggregated, key, e);
    }
  }

  lemma {:induction false} CountUpdated(order: seq<string>, aggregated: map<string, Edge>, key: string, e: Edge)
    requires (forall k :: k in order ==> k in aggregated) && key in order
    requires forall i, j :: 0 <= i < j < |order| ==> order[i] != order[j]
    ensures CountOver(order, aggregated[key := e]) == CountOver(order, aggregated) - aggregated[key].count + e.count
  {
    var last := |order| - 1;
    var front := order[..last];
    assert order == front + [order[last]];
    if order[last] == key {
      CountElsewhere(front, aggregated, key, e);
    } else {
      CountUpdated(front, aggregated, key, e);
    }
  }

  ghost function DrawnEdges(sc: Scope, representative: map<string, string>, edges: seq<Edge>): seq<Edge>
    requires Acyclic(sc.byId)
  {
    if edges == [] then []
    else
      var e := edges[|edges| - 1];
      DrawnEdges(sc, representative, edges[..|edges| - 1]) + if EndsOf(sc, representative, e).Some? then [e] else []
  }

  lemma ListsNewKey(order: seq<string>, aggregated: map<string, Edge>, key: string, e: Edge)
    requires Lists(order, aggregated) && key !in aggregated
    ensures Lists(order + [key], aggregated[key := e])
    ensures key !in order && forall k :: k in order ==> k in aggregated
  {
    hide CountOver;
  }

  lemma CountNewKey(order: seq<string>, aggregated: map<string, Edge>, key: string, e: Edge)
    requires Lists(order, aggregated) && key !in aggregated
    ensures Lists(order + [key], aggregated[key := e])
    ensures CountOver(order + [key], aggregated[key := e]) == CountOver(order, aggregated) + e.count
  {
    ListsNewKey(order, aggregated, key, e);
    hide Lists;
    assert forall k :: k in order ==> k in aggregated;
    CountElsewhere(order, aggregated, key, e);
    assert (order + [key])[..|order|] == order;
  }

  lemma CountOldKey(order: seq<string>, aggregated: map<string, Edge>, key: string, e: Edge)
    requires Lists(order, aggregated) && key in aggregated
    ensures Lists(order, aggregated[key := e])
    ensures CountOver(order, aggregated[key := e]) == CountOver(order, aggregated) - aggregated[key].count + e.count
  {
    CountUpdated(order, aggregated, key, e);
  }

  lemma DrawnGrows(sc: Scope, representative: map<string, string>, edges: seq<Edge>, e: Edge)
    requires Acyclic(sc.byId)
    ensures Total(DrawnEdges(sc, representative, edges + [e])) ==
            Total(DrawnEdges(sc, representative, edges)) + if EndsOf(sc, representative, e).Some? then e.count else 0
  {
    hide EndsOf;
    assert (edges + [e])[..|edges|] == edges;
    var before := DrawnEdges(sc, representative, edges);
    assert (before + [e])[..|before|] == before;
    assert before + [] == before;
  }

  /** The displayed edges drawn from the edges so far: each listed once, in order, each with its parts, and
      together counting every edge drawn. */
  ghost predicate Drawn(sc: Scope, representative: map<string, string>, edges: seq<Edge>,
                        order: seq<string>, aggregated: map<string, Edge>)
    requires Acyclic(sc.byId)
  {
    && order == FirstDrawn(sc, representative, edges)
    && Lists(order, aggregated) && AllDrawn(sc, representative, edges, aggregated)
    && CountOver(order, aggregated) == Total(DrawnEdges(sc, representative, edges))
  }

  lemma DropOne(sc: Scope, representative: map<string, string>, edges: seq<Edge>, e: Edge,
                order: seq<string>, aggregated: map<string, Edge>)
    requires Acyclic(sc.byId) && Drawn(sc, representative, edges, order, aggregated)
    requires EndsOf(sc, representative, e) == None
    ensures Drawn(sc, representative, edges + [e], order, aggregated)
  {
    hide AllDrawn, DrawnEdges, EndsOf, CountOver, Total;
    assert (edges + [e])[..|edges|] == edges;
    DrawNothing(sc, representative, edges, e, aggregated);
    DrawnGrows(sc, representative, edges, e);
  }

  lemma AddOne(sc: Scope, representative: map<string, string>, edges: seq<Edge>, e: Edge,
               order: seq<string>, aggregated: map<string, Edge>)
    requires Acyclic(sc.byId) && Drawn(sc, representative, edges, order, aggregated)
    requires EndsOf(sc, representative, e).Some?
    ensures var ends := EndsOf(sc, representative, e).value;
            var key := Key(e.kind, ends.0, ends.1);
            if key in aggregated
            then Drawn(sc, representative, edges + [e], order, aggregated[key := Merge(aggregated[key], e).(id := key)])
            else Drawn(sc, representative, edges + [e], order + [key],
                       aggregated[key := e.(id := key, source := ends.0, target := ends.1)])
  {
    hide AllDrawn, DrawnEdges, EndsOf, CountOver, Total, Key, Merge;
    assert (edges + [e])[..|edges|] == edges;
    var ends := EndsOf(sc, representative, e).value;
    var key := Key(e.kind, ends.0, ends.1);
    DrawOne(sc, representative, edges, e, aggregated);
    DrawnGrows(sc, representative, edges, e);
    if key in aggregated {
      MergeCounts(aggregated[key], e);
      CountOldKey(order, aggregated, key, Merge(aggregated[key], e).(id := key));
    } else {
      CountNewKey(order, aggregated, key, e.(id := key, source := ends.0, target := ends.1));
    }
  }

  lemma EndsMeans(sc: Scope, representative: map<string, string>, e: Edge)
    requires Acyclic(sc.byId)
    ensures var source, target := Projected(sc, representative, e.source), Projected(sc, representative, e.target);
            EndsOf(sc, representative, e) ==
            if || source == "" || target == "" || (source == target && e.source != e.target)
               || (e.kind == "contains" && (e.source !in representative || e.target !in representative))
            then None else Some((source, target))
  {
    hide Projected;
  }

  method AggregateEdges(sc: Scope, representative: map<string, string>, allowed: seq<Edge>)
    returns (order: seq<string>, aggregated: map<string, Edge>)
    requires Acyclic(sc.byId)
    ensures Drawn(sc, representative, allowed, order, aggregated)
  {
    order, aggregated := [], map[];
    for i := 0 to |allowed|
      invariant Drawn(sc, representative, allowed[..i], order, aggregated)
    {
      hide Drawn, Key, Merge, Projected, EndsOf;
      var edge := allowed[i];
      assert allowed[..i + 1] == allowed[..i] + [edge];
      var source := ProjectRepresentative(sc, representative, edge.source);
      var target := ProjectRepresentative(sc, representative, edge.target);
      EndsMeans(sc, representative, edge);
      if source == "" || target == "" || (source == target && edge.source != edge.target) {
        DropOne(sc, representative, allowed[..i], edge, order, aggregated);
        continue;
      }
      if edge.kind == "contains" && (edge.source !in representative || edge.target !in representative) {
        DropOne(sc, representative, allowed[..i], edge, order, aggregated);
        continue;
      }
      var id := Key(edge.kind, source, target);
      AddOne(sc, representative, allowed[..i], edge, order, aggregated);
      if id in aggregated {
        aggregated := aggregated[id := Merge(aggregated[id], edge).(id := id)];
      } else {
        aggregated := aggregated[id := edge.(id := id, source := source, target := target)];
        order := order + [id];
      }
    }
    assert allowed[..|allowed|] == allowed;
  }

  lemma MergeCounts(current: Edge, e: Edge)
    ensures Merge(current, e).count == current.count + e.count
  {
  }

  // ---------- the whole projection ----------

  /** An edge is found by its id or by the key of a displayed edge. */
  predicate Names(id: string, e: Edge) {
    e.id == id || Key(e.kind, e.source, e.target) == id
  }

  /** The first edge of that name, if there is one. */
  ghost predicate IsSelected(edges: seq<Edge>, selected: Option<string>, found: Option<Edge>) {
    match found
    case None => selected.None? || forall e :: e in edges ==> !Names(selected.value, e)
    case Some(e) =>
      selected.Some? &&
      exists i :: 0 <= i < |edges| && edges[i] == e && Names(selected.value, e) &&
                  forall j :: 0 <= j < i ==> !Names(selected.value, edges[j])
  }

  method SelectedEdge(edges: seq<Edge>, selected: Option<string>) returns (found: Option<Edge>)
    ensures IsSelected(edges, selected, found)
  {
    if selected.Some? {
      for i := 0 to |edges|
        invariant forall j :: 0 <= j < i ==> !Names(selected.value, edges[j])
      {
        if Names(selected.value, edges[i]) {
          return Some(edges[i]);
        }
      }
    }
    return None;
  }

  /** The nodes that keep their own identity because they are selected, alone or as the ends of an edge. */
  function ExactIds(selected: Option<string>, found: Option<Edge>): set<string> {
    match found
    case Some(e) => {e.source, e.target}
    case None => if selected.Some? then {selected.value} else {}
  }

  /** What the projection works out on its way. */
  datatype Plan = Plan(sc: Scope, allowed: seq<Edge>, exact: set<string>, candidates: set<string>,
                       external: map<string, string>, representative: map<string, string>,
                       order: seq<string>, aggregated: map<string, Edge>)

  ghost predicate Scopes(doc: Document, filters: Filters, entryMode: bool, p: Plan) {
    && p.sc.byId == ById(doc.nodes) && Acyclic(p.sc.byId) && p.sc.filters == filters
    && p.allowed == AllowedEdges(filters, doc.edges)
    && (if entryMode && doc.entryKey != "" then p.sc.entryIds.Some? && IsEntryScope(doc, p.sc.entryIds.value)
        else p.sc.entryIds == None)
  }

  ghost predicate Represents(doc: Document, collapsed: set<string>, p: Plan)
    requires Acyclic(p.sc.byId)
  {
    && p.candidates == CandidatesOf(p.sc, doc.nodes, p.allowed) <= p.sc.byId.Keys
    && p.external == Grouping(p.sc.byId, p.exact, p.candidates) && p.external.Keys <= p.candidates
    && p.representative == Representatives(p.sc.byId, p.external, collapsed, p.candidates)
    && p.representative.Keys == p.candidates
  }

  ghost predicate HasGroup(groups: seq<Group>, id: string) {
    exists g :: g in groups && g.id == id
  }

  /** No group is listed twice. */
  ghost predicate OneEach(groups: seq<Group>) {
    forall i, j :: 0 <= i < j < |groups| ==> groups[i].id != groups[j].id
  }

  ghost predicate Displays(doc: Document, p: Plan, visible: Visible)
    requires Acyclic(p.sc.byId) && p.external.Keys <= p.sc.byId.Keys
  {
    && visible.nodes == KeptNodes(p.sc.byId, doc.nodes, p.representative.Values, p.external)
    && (forall g :: g in visible.groups ==> GroupFits(p.sc.byId, p.external, g.id, g)) && OneEach(visible.groups)
    && (forall id :: id in p.external.Values ==> HasGroup(visible.groups, id))
    && Drawn(p.sc, p.representative, p.allowed, p.order, p.aggregated)
    && |visible.edges| == |p.order|
    && (forall i :: 0 <= i < |p.order| ==> p.order[i] in p.aggregated && visible.edges[i] == p.aggregated[p.order[i]])
  }

  ghost predicate Projects(doc: Document, filters: Filters, entryMode: bool, collapsed: set<string>, p: Plan, visible: Visible) {
    && Scopes(doc, filters, entryMode, p) && Represents(doc, collapsed, p) && Displays(doc, p, visible)
  }

  method FilterEdges(filters: Filters, edges: seq<Edge>) returns (allowed: seq<Edge>)
    ensures allowed == AllowedEdges(filters, edges)
  {
    allowed := [];
    for i := 0 to |edges|
      invariant allowed == AllowedEdges(filters, edges[..i])
    {
      assert edges[..i + 1][..i] == edges[..i];
      if Allowed(filters, edges[i]) {
        allowed := allowed + [edges[i]];
      }
    }
    assert edges[..|edges|] == edges;
  }

  method ListGroups(byId: Index, external: map<string, string>, groups: map<string, Group>) returns (list: seq<Group>)
    requires external.Keys <= byId.Keys && GroupsFit(byId, external, groups)
    ensures forall g :: g in list ==> GroupFits(byId, external, g.id, g)
    ensures (forall id :: id in external.Values ==> HasGroup(list, id)) && OneEach(list)
  {
    hide GroupFits, HasGroup;
    list := [];
    var rest := groups.Keys;
    while rest != {}
      invariant rest <= groups.Keys
      invariant forall g :: g in list ==> GroupFits(byId, external, g.id, g)
      invariant forall id :: id in groups.Keys - rest ==> HasGroup(list, id)
      invariant OneEach(list) && forall g :: g in list ==> g.id in groups.Keys - rest
      decreases rest
    {
      var id :| id in rest;
      GroupHasId(byId, external, id, groups[id]);
      HasMoreGroups(list, groups[id]);
      list := list + [groups[id]];
      rest := rest - {id};
    }
  }

  lemma HasMoreGroups(list: seq<Group>, g: Group)
    ensures HasGroup(list + [g], g.id)
    ensures forall id :: HasGroup(list, id) ==> HasGroup(list + [g], id)
  {
    assert g in list + [g];
    forall id | HasGroup(list, id)
      ensures HasGroup(list + [g], id)
    {
      var other :| other in list && other.id == id;
      assert other in list + [g];
    }
  }

  lemma GroupHasId(byId: Index, external: map<string, string>, id: string, g: Group)
    requires external.Keys <= byId.Keys && GroupFits(byId, external, id, g)
    ensures g.id == id
  {
  }

  method BuildVisibleGraph(doc: Document, filters: Filters, entryMode: bool, collapsed: set<string>, selected: Option<string>)
    returns (visible: Visible, ghost p: Plan)
    requires Acyclic(ById(doc.nodes))
    ensures Projects(doc, filters, entryMode, collapsed, p, visible)
    ensures exists found :: IsSelected(doc.edges, selected, found) && p.exact == ExactIds(selected, found)
  {
    hide ById, Acyclic, AllowedEdges, CandidatesOf, Grouping, GroupsFit, GroupFits, KeptNodes, Representatives, IsEntryScope, IsSelected;
    hide AllDrawn, DrawnEdges, CountOver, Total, HasGroup, ExactIds;
    var byId := ById(doc.nodes);
    var allowed := FilterEdges(filters, doc.edges);
    var entryIds: Option<set<string>> := None;
    if entryMode && doc.entryKey != "" {
      var ids := EntryReachable(doc);
      entryIds := Some(ids);
    }
    var sc := Scope(byId, filters, entryIds);
    var candidates := Candidates(sc, doc.nodes, allowed);
    forall id | id in candidates
      ensures id in byId
    {
      CandidatesAreNodes(sc, doc.nodes, allowed, id);
    }
    var exactEdge := SelectedEdge(doc.edges, selected);
    var exact := ExactIds(selected, exactEdge);
    var external, groups := GroupExternals(byId, exact, candidates);
    GroupingKeys(byId, exact, candidates);
    var representative := Represent(byId, external, collapsed, candidates);
    var kept := KeepNodes(byId, doc.nodes, representative.Values, external);
    var shownGroups := ListGroups(byId, external, groups);
    var order, aggregated := AggregateEdges(sc, representative, allowed);
    var edges := [];
    assert Lists(order, aggregated);
    for i := 0 to |order|
      invariant |edges| == i && forall j :: 0 <= j < i ==> order[j] in aggregated && edges[j] == aggregated[order[j]]
    {
      assert order[i] in order;
      edges := edges + [aggregated[order[i]]];
    }
    visible := Visible(kept, shownGroups, edges);
    p := Plan(sc, allowed, exact, candidates, external, representative, order, aggregated);
  }

  lemma GroupingKeys(byId: Index, exact: set<string>, candidates: set<string>)
    ensures Grouping(byId, exact, candidates).Keys <= candidates
  {
  }
}
