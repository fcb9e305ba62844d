/** Which nodes may be displayed, how external symbols are grouped, and where an edge is drawn, in the document's terms. */
module VisibleGraphLaws {
  import opened Wrappers
  import opened EdgeAggregation
  import opened VisibleNodes
  import opened VisibleGraph
  import opened VisibleGraphFacts

  // ---------- candidates ----------

  /** The node is no test unless tests are included, and in entry mode the entry reaches it. */
  predicate InScope(sc: Scope, n: Node) {
    (n.test ==> sc.filters.includeTests) && (sc.entryIds.Some? ==> n.id in sc.entryIds.value)
  }

  /** The node brings itself and what is around it into the display: it is in scope and, when only changes are shown,
      has changed. */
  predicate BringsItself(sc: Scope, n: Node) {
    InScope(sc, n) && (sc.filters.changedOnly ==> n.diff != Unchanged)
  }

  /** A changed edge brings an end that is in scope, if its kind is displayed or it is a module or package. */
  predicate BroughtByEdge(sc: Scope, allowed: seq<Edge>, end: string) {
    && sc.filters.changedOnly && end in sc.byId && InScope(sc, sc.byId[end])
    && (sc.byId[end].kind in sc.filters.nodes || sc.byId[end].kind == "module" || sc.byId[end].kind == "package")
    && exists e :: e in allowed && (e.source == end || e.target == end)
  }

  /** The candidate is the node itself, or one around it that is no test unless tests are included; either way its kind
      is displayed. */
  ghost predicate Around(sc: Scope, n: Node, id: string)
    requires Acyclic(sc.byId)
  {
    || (id == n.id && n.kind in sc.filters.nodes)
    || (id in AncestorsOf(sc.byId, n.id) && id in sc.byId && sc.byId[id].kind in sc.filters.nodes &&
        (sc.byId[id].test ==> sc.filters.includeTests))
  }

  lemma AddedIsAround(sc: Scope, n: Node, id: string)
    requires Acyclic(sc.byId)
    ensures id in AddedBy(sc, n) <==> Around(sc, n, id)
  {
    hide AncestorsOf;
  }

  lemma {:induction false} FromNodesMeans(sc: Scope, nodes: seq<Node>, id: string)
    requires Acyclic(sc.byId)
    ensures id in FromNodes(sc, nodes) <==> exists n :: n in nodes && BringsItself(sc, n) && Around(sc, n, id)
  {
    hide AddedBy, Around, AncestorsOf;
    if nodes != [] {
      var last := |nodes| - 1;
      FromNodesMeans(sc, nodes[..last], id);
      AddedIsAround(sc, nodes[last], id);
      assert nodes == nodes[..last] + [nodes[last]];
    }
  }

  lemma FromEndMeans(sc: Scope, end: string, id: string)
    requires Acyclic(sc.byId)
    ensures id in FromEnd(sc, end) <==>
            && end in sc.byId && InScope(sc, sc.byId[end])
            && (sc.byId[end].kind in sc.filters.nodes || sc.byId[end].kind == "module" || sc.byId[end].kind == "package")
            && Around(sc, sc.byId[end], id)
  {
    hide AddedBy, Around;
    if end in sc.byId {
      AddedIsAround(sc, sc.byId[end], id);
    }
  }

  /** A node may be displayed exactly if its kind is and it is, or lies around, a node that brings itself, or one that a
      changed edge brings. */
  lemma CandidateMeans(sc: Scope, nodes: seq<Node>, allowed: seq<Edge>, id: string)
    requires Acyclic(sc.byId)
    ensures id in CandidatesOf(sc, nodes, allowed) <==>
            || (exists n :: n in nodes && BringsItself(sc, n) && Around(sc, n, id))
            || (exists end :: BroughtByEdge(sc, allowed, end) && Around(sc, sc.byId[end], id))
  {
    hide FromNodes, FromEdges, FromEnd, Around;
    FromNodesMeans(sc, nodes, id);
    FromEdgesMeans(sc, allowed, id);
    if e :| e in allowed && id in FromEnd(sc, e.source) + FromEnd(sc, e.target) && sc.filters.changedOnly {
      FromEndMeans(sc, e.source, id);
      FromEndMeans(sc, e.target, id);
      assert id in FromEnd(sc, e.source) ==> BroughtByEdge(sc, allowed, e.source);
      assert id in FromEnd(sc, e.target) ==> BroughtByEdge(sc, allowed, e.target);
    }
    if end :| BroughtByEdge(sc, allowed, end) && Around(sc, sc.byId[end], id) {
      FromEndMeans(sc, end, id);
      var e :| e in allowed && (e.source == end || e.target == end);
      assert id in FromEnd(sc, e.source) + FromEnd(sc, e.target);
    }
  }

  /** An edge is considered exactly if its relation is displayed and, when only changes are shown, it has changed. */
  lemma {:induction false} AllowedMeans(filters: Filters, edges: seq<Edge>, e: Edge)
    ensures e in AllowedEdges(filters, edges) <==>
            e in edges && e.kind in filters.relations && (filters.changedOnly ==> e.diff != Unchanged)
  {
    if edges != [] {
      var last := |edges| - 1;
      AllowedMeans(filters, edges[..last], e);
      assert edges == edges[..last] + [edges[last]];
    }
  }

  // ---------- groups of external symbols ----------

  /** The package is the part of the qualified name before its first dot, or the title if there is none. */
  lemma {:induction false} PackageMeans(n: Node)
    ensures var pack, name := PackageOf(n), n.qualifiedName;
            if name == "" || name[0] == '.' then pack == n.title
            else pack != "" && pack <= name && '.' !in pack && (pack == name || name[|pack|] == '.')
  {
    BeforeDotMeans(n.qualifiedName);
  }

  lemma {:induction false} BeforeDotMeans(s: string)
    ensures var pack := BeforeDot(s);
            pack <= s && '.' !in pack && (pack == s || s[|pack|] == '.')
  {
    if s != "" && s[0] != '.' {
      BeforeDotMeans(s[1..]);
      assert s == [s[0]] + s[1..];
    }
  }

  /** Exactly the external candidates that are not selected are grouped, two of them together exactly if they have the
      same package. */
  lemma GroupedTogether(byId: Index, exact: set<string>, candidates: set<string>, a: string, b: string)
    requires candidates <= byId.Keys
    ensures var external := Grouping(byId, exact, candidates);
            && (a in external <==> a in candidates && byId[a].kind == "external_package" && a !in exact)
            && (a in external && b in external ==> (external[a] == external[b] <==> PackageOf(byId[a]) == PackageOf(byId[b])))
  {
    hide PackageOf;
    if a in candidates && b in candidates {
      SamePrefix("group:external:", PackageOf(byId[a]), PackageOf(byId[b]));
    }
  }

  lemma SamePrefix(prefix: string, a: string, b: string)
    ensures prefix + a == prefix + b <==> a == b
  {
    assert (prefix + a)[|prefix|..] == a && (prefix + b)[|prefix|..] == b;
  }

  // ---------- edges ----------

  /** The end is represented there. */
  predicate RepresentedAt(representative: map<string, string>, id: string, place: string) {
    place != "" && id in representative && representative[id] == place
  }

  predicate Unrepresented(representative: map<string, string>, id: string) {
    id in representative ==> representative[id] == ""
  }

  /** An end falls where it is represented; a module or package that is in scope but not displayed falls where the
      nearest of its ancestors that is represented is. */
  ghost predicate FallsAt(sc: Scope, representative: map<string, string>, id: string, place: string)
    requires Acyclic(sc.byId)
  {
    || RepresentedAt(representative, id, place)
    || (&& Unrepresented(representative, id) && id in sc.byId && InScope(sc, sc.byId[id])
        && (sc.byId[id].kind == "module" || sc.byId[id].kind == "package") && sc.byId[id].kind !in sc.filters.nodes
        && exists i :: FirstRepresentedAt(AncestorsOf(sc.byId, id), representative, i, place))
  }

  predicate FirstRepresentedAt(ids: seq<string>, representative: map<string, string>, i: int, place: string) {
    && 0 <= i < |ids| && RepresentedAt(representative, ids[i], place)
    && forall j :: 0 <= j < i ==> Unrepresented(representative, ids[j])
  }

  lemma {:induction false} FirstRepresentedMeans(ids: seq<string>, representative: map<string, string>, place: string)
    requires place != ""
    ensures FirstRepresented(ids, representative) == place <==> exists i :: FirstRepresentedAt(ids, representative, i, place)
  {
    if ids != [] {
      var rest := ids[1..];
      FirstRepresentedMeans(rest, representative, place);
      if i :| FirstRepresentedAt(rest, representative, i, place) && Unrepresented(representative, ids[0]) {
        assert forall j :: 0 < j < i + 1 ==> ids[j] == rest[j - 1];
        assert FirstRepresentedAt(ids, representative, i + 1, place);
      }
      if i :| FirstRepresentedAt(ids, representative, i, place) {
        if i > 0 {
          assert forall j :: 0 <= j < i - 1 ==> rest[j] == ids[j + 1];
          assert FirstRepresentedAt(rest, representative, i - 1, place);
        }
      }
      assert RepresentedAt(representative, ids[0], place) ==> FirstRepresentedAt(ids, representative, 0, place);
    }
  }

  lemma ProjectedMeans(sc: Scope, representative: map<string, string>, id: string, place: string)
    requires Acyclic(sc.byId) && place != ""
    ensures Projected(sc, representative, id) == place <==> FallsAt(sc, representative, id, place)
  {
    hide AncestorsOf, FirstRepresented, FirstRepresentedAt;
    FirstRepresentedMeans(AncestorsOf(sc.byId, id), representative, place);
  }

  /** An edge is drawn between two places exactly if its ends fall there, they are not the same unless the edge is a
      loop, and, if it says that one node contains another, both nodes are candidates. */
  lemma EdgeDrawnIff(sc: Scope, representative: map<string, string>, e: Edge, source: string, target: string)
    requires Acyclic(sc.byId) && source != "" && target != ""
    ensures EndsOf(sc, representative, e) == Some((source, target)) <==>
            && FallsAt(sc, representative, e.source, source) && FallsAt(sc, representative, e.target, target)
            && (source == target ==> e.source == e.target)
            && (e.kind == "contains" ==> e.source in representative && e.target in representative)
  {
    hide Projected, FallsAt;
    ProjectedMeans(sc, representative, e.source, source);
    ProjectedMeans(sc, representative, e.target, target);
  }
}
