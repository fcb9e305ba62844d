/** Revealing a selected node or edge: the settings it changes, and that the selection is then displayed. */
module RevealSelection {
  import opened Wrappers
  import opened Reachability
  import opened EdgeAggregation
  import opened VisibleNodes
  import opened VisibleGraph
  import opened VisibleGraphFacts

  datatype Settings = Settings(filters: Filters, entryMode: bool, collapsed: set<string>)

  function Targets(id: string, found: Option<Edge>): seq<string> {
    match found
    case Some(e) => [e.source, e.target]
    case None => [id]
  }

  ghost function Opened(byId: Index, targets: seq<string>): set<string>
    requires Acyclic(byId)
  {
    if targets == [] then {}
    else
      var t := targets[|targets| - 1];
      Opened(byId, targets[..|targets| - 1]) + if t in byId then {t} + set a | a in AncestorsOf(byId, t) else {}
  }

  ghost predicate InScope(doc: Document, id: string) {
    if doc.entryReachableIds.Some? then id in doc.entryReachableIds.value
    else Reaches(ArcsOf(doc.edges), doc.entryKey, id)
  }

  /** The settings change just enough for the targets. */
  ghost predicate Reveals(doc: Document, targets: seq<string>, relations: set<string>, same: bool, before: Settings, after: Settings)
    requires Acyclic(ById(doc.nodes))
  {
    var byId := ById(doc.nodes);
    && after.collapsed == before.collapsed - Opened(byId, targets)
    && after.filters.nodes == before.filters.nodes + (set t | t in targets && t in byId :: byId[t].kind)
    && after.filters.relations == before.filters.relations + relations
    && (after.filters.includeTests <==> before.filters.includeTests || exists t :: t in targets && t in byId && byId[t].test)
    && (after.filters.changedOnly <==>
          before.filters.changedOnly && !same && !exists t :: t in targets && t in byId && byId[t].diff == Unchanged)
    && (after.entryMode <==> before.entryMode && forall t :: t in targets && t in byId ==> InScope(doc, t))
  }

  ghost predicate RevealsSelection(doc: Document, id: string, found: Option<Edge>, before: Settings, after: Settings)
    requires Acyclic(ById(doc.nodes))
  {
    match found
    case Some(e) => Reveals(doc, Targets(id, found), {e.kind}, e.diff == Unchanged, before, after)
    case None => Reveals(doc, Targets(id, found), {}, false, before, after)
  }

  method RevealOne(doc: Document, byId: Index, entryIds: Option<set<string>>, target: string, settings: Settings)
    returns (next: Settings)
    requires Acyclic(byId)
    ensures target !in byId ==> next == settings
    ensures target in byId ==>
              var node := byId[target];
              next == Settings(settings.filters.(nodes := settings.filters.nodes + {node.kind},
                                                 includeTests := settings.filters.includeTests || node.test,
                                                 changedOnly := settings.filters.changedOnly && node.diff != Unchanged),
                               settings.entryMode && (entryIds.None? || target in entryIds.value),
                               settings.collapsed - ({target} + set a | a in AncestorsOf(byId, target)))
  {
    next := settings;
    if target !in byId {
      return;
    }
    var node := byId[target];
    if entryIds.Some? && target !in entryIds.value {
      next := next.(entryMode := false);
    }
    var filters := next.filters.(nodes := next.filters.nodes + {node.kind});
    if node.test {
      filters := filters.(includeTests := true);
    }
    if node.diff == Unchanged {
      filters := filters.(changedOnly := false);
    }
    var ancestors := ListAncestors(byId, target);
    next := Settings(filters, next.entryMode, next.collapsed - {target});
    ghost var before, mode := next.collapsed, next.entryMode;
    for i := 0 to |ancestors|
      invariant next == Settings(filters, mode, before - set a | a in ancestors[..i])
    {
      assert ancestors[..i + 1] == ancestors[..i] + [ancestors[i]];
      next := next.(collapsed := next.collapsed - {ancestors[i]});
    }
    assert ancestors[..|ancestors|] == ancestors;
    assert next.collapsed == settings.collapsed - ({target} + set a | a in AncestorsOf(byId, target));
  }

  lemma RevealStep(doc: Document, targets: seq<string>, relations: set<string>, before: Settings, now: Settings, target: string,
                   next: Settings, inScope: bool)
    requires Acyclic(ById(doc.nodes)) && Reveals(doc, targets, relations, false, before, now)
    requires inScope <==> InScope(doc, target)
    requires target !in ById(doc.nodes) ==> next == now
    requires target in ById(doc.nodes) ==>
               var node := ById(doc.nodes)[target];
               next == Settings(now.filters.(nodes := now.filters.nodes + {node.kind},
                                             includeTests := now.filters.includeTests || node.test,
                                             changedOnly := now.filters.changedOnly && node.diff != Unchanged),
                                now.entryMode && (!before.entryMode || inScope),
                                now.collapsed - ({target} + set a | a in AncestorsOf(ById(doc.nodes), target)))
    ensures Reveals(doc, targets + [target], relations, false, before, next)
  {
    hide ById, InScope, AncestorsOf;
    assert (targets + [target])[..|targets|] == targets;
    var byId := ById(doc.nodes);
    var all := targets + [target];
    assert (set t | t in all && t in byId :: byId[t].kind) ==
           (set t | t in targets && t in byId :: byId[t].kind) + if target in byId then {byId[target].kind} else {};
    assert forall t :: t in all <==> t in targets || t == target;
  }

  method RevealSelected(doc: Document, id: string, settings: Settings) returns (next: Settings, ghost found: Option<Edge>)
    requires Acyclic(ById(doc.nodes))
    ensures IsSelected(doc.edges, Some(id), found) && RevealsSelection(doc, id, found, settings, next)
  {
    hide ById, IsSelected, InScope;
    var byId := ById(doc.nodes);
    var edge := SelectedEdge(doc.edges, Some(id));
    found := edge;
    var ids := Targets(id, edge);
    next := settings;
    var entryIds: Option<set<string>> := None;
    if settings.entryMode {
      var reachable := EntryReachable(doc);
      entryIds := Some(reachable);
      ScopeMeans(doc, reachable);
    }
    var relations: set<string> := {};
    if edge.Some? {
      relations := {edge.value.kind};
      next := next.(filters := next.filters.(relations := next.filters.relations + relations));
    }
    assert ids[..0] == [];
    assert Reveals(doc, [], relations, false, settings, next);
    for i := 0 to |ids|
      invariant Reveals(doc, ids[..i], relations, false, settings, next)
    {
      hide Reveals;
      var now := next;
      next := RevealOne(doc, byId, entryIds, ids[i], next);
      assert ids[..i + 1] == ids[..i] + [ids[i]];
      RevealStep(doc, ids[..i], relations, settings, now, ids[i], next, InScope(doc, ids[i]));
    }
    assert ids[..|ids|] == ids;
    if edge.Some? && edge.value.diff == Unchanged {
      next := next.(filters := next.filters.(changedOnly := false));
    }
  }

  lemma ScopeMeans(doc: Document, ids: set<string>)
    requires IsEntryScope(doc, ids)
    ensures forall id :: id in ids <==> InScope(doc, id)
  {
  }

  // ---------- what is revealed is displayed ----------

  lemma {:induction false} FromNodesHolds(sc: Scope, nodes: seq<Node>, n: Node)
    requires Acyclic(sc.byId) && n in nodes && Eligible(sc, n) && n.kind in sc.filters.nodes
    ensures n.id in FromNodes(sc, nodes)
  {
    hide AncestorsOf;
    var last := |nodes| - 1;
    if n != nodes[last] {
      assert n in nodes[..last];
      FromNodesHolds(sc, nodes[..last], n);
    }
  }

  lemma {:induction false} OpenedHolds(byId: Index, targets: seq<string>, t: string)
    requires Acyclic(byId) && t in targets && t in byId
    ensures t in Opened(byId, targets) && forall a :: a in AncestorsOf(byId, t) ==> a in Opened(byId, targets)
  {
    hide AncestorsOf;
    var last := |targets| - 1;
    if t != targets[last] {
      assert t in targets[..last];
      OpenedHolds(byId, targets[..last], t);
    }
  }

  /** After revealing a node, or an edge and with it its ends, the node is displayed as itself. */
  lemma RevealedIsShown(doc: Document, id: string, found: Option<Edge>, before: Settings, after: Settings, p: Plan, visible: Visible, t: string)
    requires Acyclic(ById(doc.nodes)) && RevealsSelection(doc, id, found, before, after)
    requires Projects(doc, after.filters, after.entryMode, after.collapsed, p, visible) && p.exact == ExactIds(Some(id), found)
    requires t in Targets(id, found) && t in ById(doc.nodes)
    ensures t in p.representative && p.representative[t] == t
    ensures exists n :: n in visible.nodes && n.id == t
  {
    hide Drawn, KeptNodes, IsEntryScope, InScope, AllowedEdges, FromEdges, FromNodes, Opened, AncestorsFrom;
    var byId := ById(doc.nodes);
    var n := byId[t];
    IndexedIsNode(doc.nodes, t);
    assert n.kind in after.filters.nodes;
    assert Scoped(p.sc, n) by {
      if p.sc.entryIds.Some? {
        ScopeMeans(doc, p.sc.entryIds.value);
      }
    }
    FromNodesHolds(p.sc, doc.nodes, n);
    assert t in p.candidates && t !in p.external;
    OpenedHolds(byId, Targets(id, found), t);
    FirstInMeans(AncestorsOf(byId, t), after.collapsed * p.candidates);
    assert Standing(byId, n, after.collapsed, p.candidates) == t;
    KeptNodeIds(byId, doc.nodes, p.representative.Values, p.external, t);
  }

  lemma {:induction false} AllowedHolds(filters: Filters, edges: seq<Edge>, e: Edge)
    requires e in edges && Allowed(filters, e)
    ensures e in AllowedEdges(filters, edges)
  {
    var last := |edges| - 1;
    if e != edges[last] {
      assert e in edges[..last];
      AllowedHolds(filters, edges[..last], e);
    }
  }

  /** After revealing an edge between two nodes, it is among the edges drawn between these very nodes. */
  lemma RevealedEdgeIsDrawn(doc: Document, id: string, e: Edge, before: Settings, after: Settings, p: Plan, visible: Visible)
    requires Acyclic(ById(doc.nodes)) && IsSelected(doc.edges, Some(id), Some(e))
    requires RevealsSelection(doc, id, Some(e), before, after)
    requires Projects(doc, after.filters, after.entryMode, after.collapsed, p, visible) && p.exact == ExactIds(Some(id), Some(e))
    requires e.source in ById(doc.nodes) && e.target in ById(doc.nodes) && e.source != "" && e.target != ""
    ensures var key := Key(e.kind, e.source, e.target);
            && (exists r :: r in visible.edges && r.id == key)
            && e in Parts(p.sc, p.representative, p.allowed, key)
  {
    RevealedIsShown(doc, id, Some(e), before, after, p, visible, e.source);
    RevealedIsShown(doc, id, Some(e), before, after, p, visible, e.target);
    hide ById, KeptNodes, IsEntryScope, CandidatesOf, Representatives, Grouping, GroupFits, HasGroup, Parts, Key, Opened, CountOver, Total, AllowedEdges;
    assert Allowed(after.filters, e);
    AllowedHolds(after.filters, doc.edges, e);
    var key := Key(e.kind, e.source, e.target);
    assert EndsOf(p.sc, p.representative, e) == Some((e.source, e.target));
    PartsAreDrawn(p.sc, p.representative, p.allowed, key, e);
    assert KeyDrawn(p.sc, p.representative, p.allowed, p.aggregated, key);
    assert key in p.order;
    var i :| 0 <= i < |p.order| && p.order[i] == key;
    assert visible.edges[i] == p.aggregated[key];
  }
}
