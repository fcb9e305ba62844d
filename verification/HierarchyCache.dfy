/** The inheritance side of the hierarchy cache: nodes with lists of base classes, and the
    query for all inheritance edges on paths between two nodes. */
module HierarchyCache {
  import opened Reachability

  type Id = nat

  datatype Entry = Entry(base: Id, edge: Id)

  /** For every node its inheritance entries, in the order they were added. */
  type Graph = map<Id, seq<Entry>>

  /** One inheritance entry: the i-th of a node. */
  datatype Slot = Slot(node: Id, i: nat)

  ghost predicate IsSlot(g: Graph, slot: Slot) {
    slot.node in g && slot.i < |g[slot.node]|
  }

  ghost function BaseOf(g: Graph, slot: Slot): Id
    requires IsSlot(g, slot)
  {
    g[slot.node][slot.i].base
  }

  ghost function EdgeOf(g: Graph, slot: Slot): Id
    requires IsSlot(g, slot)
  {
    g[slot.node][slot.i].edge
  }

  ghost function Arcs(g: Graph): set<(Id, Id)> {
    set u, i | u in g && 0 <= i < |g[u]| :: (u, g[u][i].base)
  }

  ghost predicate NoDuplicates<T>(s: seq<T>) {
    forall i, j :: 0 <= i < j < |s| ==> s[i] != s[j]
  }

  /** The entry lies on a path from s to t. */
  ghost predicate OnPath(g: Graph, s: Id, t: Id, slot: Slot) {
    IsSlot(g, slot) && Reaches(Arcs(g), s, slot.node) && Reaches(Arcs(g), BaseOf(g, slot), t)
  }

  /** `edges` are the edge ids of `trail`, which lists every entry on a path from s to t once. */
  ghost predicate Enumerates(g: Graph, s: Id, t: Id, trail: seq<Slot>, edges: seq<Id>) {
    && NoDuplicates(trail) && |trail| == |edges|
    && (forall slot :: slot in trail <==> OnPath(g, s, t, slot))
    && (forall k :: 0 <= k < |trail| ==> IsSlot(g, trail[k]) && edges[k] == EdgeOf(g, trail[k]))
  }

  ghost predicate ExactEdges(g: Graph, s: Id, t: Id, edges: seq<Id>) {
    exists trail :: Enumerates(g, s, t, trail, edges)
  }

  // ---------- the reverse graph ----------

  /** Base node id to the (node, edge) pairs pushed for it. */
  type ReverseGraph = map<Id, seq<(Id, Id)>>

  ghost predicate SlotsOf(g: Graph, log: seq<Slot>) {
    forall slot :: slot in log ==> IsSlot(g, slot)
  }

  /** The logged entries that lead into v, in the order they were pushed. */
  ghost function Into(g: Graph, log: seq<Slot>, v: Id): (into: seq<Slot>)
    requires SlotsOf(g, log)
    ensures forall slot :: slot in into <==> slot in log && BaseOf(g, slot) == v
  {
    if log == [] then []
    else
      assert log == log[..|log| - 1] + [log[|log| - 1]];
      Into(g, log[..|log| - 1], v) + if BaseOf(g, log[|log| - 1]) == v then [log[|log| - 1]] else []
  }

  /** The pairs stored for a key, entry by entry. */
  ghost predicate Renders(g: Graph, slots: seq<Slot>, pairs: seq<(Id, Id)>) {
    && |pairs| == |slots|
    && forall k :: 0 <= k < |slots| ==> IsSlot(g, slots[k]) && pairs[k] == (slots[k].node, EdgeOf(g, slots[k]))
  }

  lemma {:induction false} IntoNoDuplicates(g: Graph, log: seq<Slot>, v: Id)
    requires SlotsOf(g, log) && NoDuplicates(log)
    ensures NoDuplicates(Into(g, log, v))
  {
    if log != [] {
      IntoNoDuplicates(g, log[..|log| - 1], v);
    }
  }

  /** The map holds, for every key, the pairs of the logged entries that lead into it. */
  ghost predicate Represents(g: Graph, reverse: ReverseGraph, log: seq<Slot>) {
    && SlotsOf(g, log)
    && (forall v :: v in reverse ==> Renders(g, Into(g, log, v), reverse[v]))
    && (forall slot :: slot in log ==> BaseOf(g, slot) in reverse)
  }

  function Push(reverse: ReverseGraph, v: Id, pair: (Id, Id)): ReverseGraph {
    reverse[v := (if v in reverse then reverse[v] else []) + [pair]]
  }

  lemma PushRepresents(g: Graph, reverse: ReverseGraph, log: seq<Slot>, slot: Slot)
    requires Represents(g, reverse, log) && IsSlot(g, slot)
    ensures Represents(g, Push(reverse, BaseOf(g, slot), (slot.node, EdgeOf(g, slot))), log + [slot])
  {
    var v := BaseOf(g, slot);
    var log' := log + [slot];
    var reverse' := Push(reverse, v, (slot.node, EdgeOf(g, slot)));
    assert log'[..|log'| - 1] == log;
    assert v !in reverse ==> Into(g, log, v) == [] by {
      assert forall other :: other in Into(g, log, v) ==> v in reverse;
      assert Into(g, log, v) != [] ==> Into(g, log, v)[0] in Into(g, log, v);
    }
    forall w | w in reverse'
      ensures Renders(g, Into(g, log', w), reverse'[w])
    {
      assert Into(g, log', w) == Into(g, log, w) + if v == w then [slot] else [];
    }
  }

  /** How far the visit of u has come: all entries of newly discovered nodes and the first i of u
      have been logged, and nothing else since `log0`. */
  ghost predicate Visited(g: Graph, u: Id, i: nat, keys0: set<Id>, log0: seq<Slot>, reverse: ReverseGraph, log: seq<Slot>) {
    && keys0 <= reverse.Keys <= g.Keys
    && Represents(g, reverse, log) && NoDuplicates(log)
    && (forall slot :: slot in log <==> slot in log0 || NewlyLogged(g, u, i, reverse.Keys - keys0, slot))
    && (forall id :: id in reverse.Keys - keys0 ==> Reaches(Arcs(g), u, id))
  }

  ghost predicate NewlyLogged(g: Graph, u: Id, i: nat, discovered: set<Id>, slot: Slot) {
    IsSlot(g, slot) && (slot.node in discovered || (slot.node == u && slot.i < i))
  }

  ghost predicate LoggedIn(log: seq<Slot>, keys: set<Id>) {
    forall slot :: slot in log ==> slot.node in keys
  }

  ghost predicate Unlogged(u: Id, log: seq<Slot>) {
    forall slot :: slot in log ==> slot.node != u
  }

  lemma VisitOldBase(g: Graph, u: Id, i: nat, keys0: set<Id>, log0: seq<Slot>, reverse: ReverseGraph, log: seq<Slot>)
    requires Visited(g, u, i, keys0, log0, reverse, log)
    requires u in keys0 && Unlogged(u, log0) && IsSlot(g, Slot(u, i))
    requires g[u][i].base in reverse
    ensures Visited(g, u, i + 1, keys0, log0, Push(reverse, g[u][i].base, (u, g[u][i].edge)), log + [Slot(u, i)])
  {
    PushRepresents(g, reverse, log, Slot(u, i));
    var reverse1 := Push(reverse, g[u][i].base, (u, g[u][i].edge));
    assert reverse1.Keys == reverse.Keys;
    assert Slot(u, i) !in log;
    LogGrows(log, Slot(u, i));
    hide Represents, NoDuplicates, Push, Reaches;
    forall slot
      ensures slot in log + [Slot(u, i)] <==> slot in log0 || NewlyLogged(g, u, i + 1, reverse1.Keys - keys0, slot)
    {
      assert slot in log <==> slot in log0 || NewlyLogged(g, u, i, reverse.Keys - keys0, slot);
    }
  }

  /** Before the helper descends into a base it has just discovered. */
  lemma LogGrows(log: seq<Slot>, slot: Slot)
    requires NoDuplicates(log) && slot !in log
    ensures NoDuplicates(log + [slot])
    ensures forall other :: other in log + [slot] <==> other in log || other == slot
  {
  }

  lemma VisitedKeys(g: Graph, u: Id, i: nat, keys0: set<Id>, log0: seq<Slot>, reverse: ReverseGraph, log: seq<Slot>)
    requires Visited(g, u, i, keys0, log0, reverse, log)
    ensures keys0 <= reverse.Keys <= g.Keys
  {
  }

  lemma LoggedInKeys(g: Graph, u: Id, i: nat, keys0: set<Id>, log0: seq<Slot>, reverse: ReverseGraph, log: seq<Slot>)
    requires Visited(g, u, i, keys0, log0, reverse, log) && u in keys0
    requires LoggedIn(log0, keys0)
    ensures LoggedIn(log, reverse.Keys)
  {
  }

  lemma EnterNewBase(g: Graph, u: Id, i: nat, keys0: set<Id>, log0: seq<Slot>, reverse: ReverseGraph, log: seq<Slot>)
    requires Visited(g, u, i, keys0, log0, reverse, log)
    requires u in keys0 && Unlogged(u, log0) && IsSlot(g, Slot(u, i))
    requires g[u][i].base in g && g[u][i].base !in reverse
    requires LoggedIn(log0, keys0)
    ensures var v := g[u][i].base; var log1 := log + [Slot(u, i)];
            var reverse1 := Push(reverse, v, (u, g[u][i].edge));
            && Visited(g, v, 0, reverse1.Keys, log1, reverse1, log1)
            && reverse1.Keys == reverse.Keys + {v} && Unlogged(v, log1)
            && LoggedIn(log1, reverse1.Keys)
  {
    LoggedInKeys(g, u, i, keys0, log0, reverse, log);
    PushRepresents(g, reverse, log, Slot(u, i));
    LogGrows(log, Slot(u, i));
    StartVisit(g, g[u][i].base, Push(reverse, g[u][i].base, (u, g[u][i].edge)), log + [Slot(u, i)]);
  }

  lemma StartVisit(g: Graph, u: Id, reverse: ReverseGraph, log: seq<Slot>)
    requires Represents(g, reverse, log) && NoDuplicates(log) && reverse.Keys <= g.Keys
    ensures Visited(g, u, 0, reverse.Keys, log, reverse, log)
  {
  }

  /** After the helper has returned from it. */
  lemma LeaveNewBase(g: Graph, u: Id, i: nat, keys0: set<Id>, log0: seq<Slot>, reverse: ReverseGraph, log: seq<Slot>,
                     reverse2: ReverseGraph, log2: seq<Slot>)
    requires Visited(g, u, i, keys0, log0, reverse, log)
    requires u in keys0 && IsSlot(g, Slot(u, i)) && g[u][i].base !in reverse
    requires g[u][i].base in g
    requires Visited(g, g[u][i].base, |g[g[u][i].base]|, reverse.Keys + {g[u][i].base}, log + [Slot(u, i)], reverse2, log2)
    ensures Visited(g, u, i + 1, keys0, log0, reverse2, log2)
  {
    var v := g[u][i].base;
    ReachesSelf(Arcs(g), u);
    ReachesStep(Arcs(g), u, u, v);
    forall id | id in reverse2.Keys - keys0
      ensures Reaches(Arcs(g), u, id)
    {
      if id != v && id !in reverse {
        ReachesTransitive(Arcs(g), u, v, id);
      }
    }
    forall slot
      ensures slot in log2 <==> slot in log0 || NewlyLogged(g, u, i + 1, reverse2.Keys - keys0, slot)
    {
      LeaveSlot(g, u, i, keys0, log0, reverse, log, reverse2, log2, slot);
    }
  }

  lemma LeaveSlot(g: Graph, u: Id, i: nat, keys0: set<Id>, log0: seq<Slot>, reverse: ReverseGraph, log: seq<Slot>,
                  reverse2: ReverseGraph, log2: seq<Slot>, slot: Slot)
    requires u in keys0 && IsSlot(g, Slot(u, i)) && g[u][i].base !in reverse && g[u][i].base in g
    requires keys0 <= reverse.Keys && reverse.Keys + {g[u][i].base} <= reverse2.Keys
    requires slot in log <==> slot in log0 || NewlyLogged(g, u, i, reverse.Keys - keys0, slot)
    requires var v := g[u][i].base;
             slot in log2 <==> (slot in log + [Slot(u, i)] || NewlyLogged(g, v, |g[v]|, reverse2.Keys - (reverse.Keys + {v}), slot))
    ensures slot in log2 <==> slot in log0 || NewlyLogged(g, u, i + 1, reverse2.Keys - keys0, slot)
  {
  }

  /** The map holds exactly what is reachable from s, and every entry of it once. */
  ghost predicate Subgraph(g: Graph, s: Id, reverse: ReverseGraph, log: seq<Slot>) {
    && Represents(g, reverse, log) && NoDuplicates(log)
    && (forall id :: id in reverse <==> Reaches(Arcs(g), s, id))
    && (forall slot :: slot in log <==> IsSlot(g, slot) && slot.node in reverse)
  }

  lemma SubgraphFacts(g: Graph, s: Id, reverse: ReverseGraph, log: seq<Slot>)
    requires Subgraph(g, s, reverse, log)
    ensures Represents(g, reverse, log) && NoDuplicates(log) && LoggedIn(log, reverse.Keys) && SlotsOf(g, log)
  {
  }

  class HierarchyNode {
    const nodeId: Id
    var bases: seq<HierarchyNode>
    var baseEdgeIds: seq<Id>

    constructor (nodeId: Id)
      ensures this.nodeId == nodeId && bases == [] && baseEdgeIds == []
    {
      this.nodeId := nodeId;
      bases, baseEdgeIds := [], [];
    }

    method AddBase(base: HierarchyNode, edgeId: Id)
      modifies this
      ensures bases == old(bases) + [base] && baseEdgeIds == old(baseEdgeIds) + [edgeId]
    {
      bases := bases + [base];
      baseEdgeIds := baseEdgeIds + [edgeId];
    }

    /** Everything reachable from this node, with its arcs reversed. */
    method ReverseReachableSubgraph(cache: Cache, ghost g: Graph) returns (reverse: ReverseGraph, ghost log: seq<Slot>)
      requires cache.Valid() && cache.Owns(this) && g == cache.Inheritance()
      ensures Subgraph(g, nodeId, reverse, log)
    {
      reverse, log := ReverseReachableHelper(cache, map[nodeId := []], g, []);
      ReachesSelf(Arcs(g), nodeId);
      forall id | Reaches(Arcs(g), nodeId, id)
        ensures id in reverse
      {
        forall arc | arc in Arcs(g) && arc.0 in reverse
          ensures arc.1 in reverse
        {
          var i :| 0 <= i < |g[arc.0]| && g[arc.0][i].base == arc.1;
          assert Slot(arc.0, i) in log;
        }
        ClosedKeepsReachable(Arcs(g), reverse.Keys, nodeId, id);
      }
    }

    /** Pushes the entries of this node and of every node it discovers, each once. */
    method ReverseReachableHelper(cache: Cache, reverse0: ReverseGraph, ghost g: Graph, ghost log0: seq<Slot>)
      returns (reverse: ReverseGraph, ghost log: seq<Slot>)
      requires cache.Valid() && cache.Owns(this) && g == cache.Inheritance()
      requires nodeId in reverse0 && Unlogged(nodeId, log0) && LoggedIn(log0, reverse0.Keys)
      requires Visited(g, nodeId, 0, reverse0.Keys, log0, reverse0, log0)
      ensures Visited(g, nodeId, |bases|, reverse0.Keys, log0, reverse, log)
      decreases g.Keys - reverse0.Keys
    {
      reverse, log := reverse0, log0;
      cache.NodeFacts(this, g);
      hide *;
      for i := 0 to |bases|
        invariant Visited(g, nodeId, i, reverse0.Keys, log0, reverse, log)
      {
        var base := bases[i];
        cache.EntryFacts(this, i, g);
        VisitedKeys(g, nodeId, i, reverse0.Keys, log0, reverse, log);
        var emplaced := base.nodeId !in reverse;
        var pushed := Push(reverse, base.nodeId, (nodeId, baseEdgeIds[i]));
        if emplaced {
          EnterNewBase(g, nodeId, i, reverse0.Keys, log0, reverse, log);
          ghost var reverse1, log1 := reverse, log;
          reverse, log := base.ReverseReachableHelper(cache, pushed, g, log + [Slot(nodeId, i)]);
          LeaveNewBase(g, nodeId, i, reverse0.Keys, log0, reverse1, log1, reverse, log);
        } else {
          VisitOldBase(g, nodeId, i, reverse0.Keys, log0, reverse, log);
          reverse, log := pushed, log + [Slot(nodeId, i)];
        }
      }
    }
  }

  class Cache {
    var nodes: map<Id, HierarchyNode>

    ghost predicate Valid()
      reads this, nodes.Values
    {
      forall id :: id in nodes ==>
        && nodes[id].nodeId == id
        && |nodes[id].bases| == |nodes[id].baseEdgeIds|
        && forall b :: b in nodes[id].bases ==> Owns(b)
    }

    ghost predicate Owns(node: HierarchyNode)
      reads this
    {
      node.nodeId in nodes && nodes[node.nodeId] == node
    }

    ghost function Inheritance(): (g: Graph)
      requires Valid()
      reads this, nodes.Values
    {
      map id | id in nodes :: Entries(nodes[id])
    }

    lemma NodeFacts(node: HierarchyNode, g: Graph)
      requires Valid() && Owns(node) && g == Inheritance()
      ensures node.nodeId in g && |g[node.nodeId]| == |node.bases| == |node.baseEdgeIds|
    {
    }

    lemma EntryFacts(node: HierarchyNode, i: nat, g: Graph)
      requires Valid() && Owns(node) && g == Inheritance() && i < |node.bases|
      ensures IsSlot(g, Slot(node.nodeId, i)) && |node.baseEdgeIds| == |node.bases|
      ensures g[node.nodeId][i] == Entry(node.bases[i].nodeId, node.baseEdgeIds[i])
      ensures Owns(node.bases[i]) && node.bases[i].nodeId in g
      ensures |g[node.bases[i].nodeId]| == |node.bases[i].bases|
    {
      assert node.bases[i] in node.bases;
    }

    ghost function Entries(node: HierarchyNode): seq<Entry>
      requires |node.bases| == |node.baseEdgeIds|
      reads node
    {
      seq(|node.bases|, i requires 0 <= i < |node.bases| && |node.bases| == |node.baseEdgeIds| reads node =>
        Entry(node.bases[i].nodeId, node.baseEdgeIds[i]))
    }

    method GetNode(nodeId: Id) returns (node: HierarchyNode?)
      requires Valid()
      ensures nodeId in nodes ==> node == nodes[nodeId]
      ensures nodeId !in nodes ==> node == null
    {
      node := if nodeId in nodes then nodes[nodeId] else null;
    }

    method CreateNode(nodeId: Id) returns (node: HierarchyNode)
      requires Valid()
      modifies this
      ensures Valid() && Owns(node) && node.nodeId == nodeId
      ensures nodes.Keys == old(nodes.Keys) + {nodeId}
      ensures forall id :: id in old(nodes) ==> nodes[id] == old(nodes)[id]
      ensures nodeId !in old(nodes) ==> fresh(node) && node.bases == [] && node.baseEdgeIds == []
      ensures Inheritance() == WithNode(old(Inheritance()), nodeId)
    {
      if nodeId !in nodes {
        ghost var before := Inheritance();
        node := new HierarchyNode(nodeId);
        nodes := nodes[nodeId := node];
        assert Entries(node) == [];
        forall id | id in before
          ensures Entries(nodes[id]) == before[id]
        {
          assert forall i :: 0 <= i < |nodes[id].bases| ==> nodes[id].bases[i] in nodes[id].bases;
        }
      }
      node := nodes[nodeId];
    }

    /** Adds one entry; an edge from a node to itself is ignored. */
    method CreateInheritance(edgeId: Id, fromId: Id, toId: Id)
      requires Valid()
      modifies this, nodes.Values
      ensures Valid()
      ensures Inheritance() == if fromId == toId then old(Inheritance()) else WithEntry(old(Inheritance()), fromId, Entry(toId, edgeId))
    {
      if fromId == toId {
        return;
      }
      var from := CreateNode(fromId);
      var to := CreateNode(toId);
      Link(from, to, edgeId);
    }

    method Link(from: HierarchyNode, to: HierarchyNode, edgeId: Id)
      requires Valid() && Owns(from) && Owns(to)
      modifies from
      ensures Valid() && nodes == old(nodes)
      ensures Inheritance() == old(Inheritance())[from.nodeId := old(Inheritance())[from.nodeId] + [Entry(to.nodeId, edgeId)]]
    {
      from.AddBase(to, edgeId);
      forall id | id in nodes && id != from.nodeId
        ensures Entries(nodes[id]) == old(Entries(nodes[id]))
      {
        assert nodes[id].bases == old(nodes[id].bases);
      }
      assert Entries(from) == old(Entries(from)) + [Entry(to.nodeId, edgeId)];
    }

    /** For each target that can be reached from the source, all inheritance edges between the two. */
    method GetInheritanceEdgesForNodeId(sourceId: Id, targetIds: set<Id>) returns (result: seq<Answer>)
      requires Valid()
      ensures Answers(Inheritance(), sourceId, targetIds, result)
    {
      result := [];
      if targetIds == {} {
        return;
      }
      ghost var g := Inheritance();
      var sourceNode := GetNode(sourceId);
      if sourceNode == null {
        forall t, slot
          ensures !OnPath(g, sourceId, t, slot)
        {
          NothingFromOutside(g, sourceId, t, slot);
        }
        return;
      }
      var reverse; ghost var log;
      reverse, log := sourceNode.ReverseReachableSubgraph(this, g);
      var remaining := targetIds;
      SubgraphFacts(g, sourceId, reverse, log);
      assert NoDuplicates<Slot>([]) && Labels(g, [], []) && AllLead(g, [], {});
      assert targetIds - remaining == {};
      assert Answers(g, sourceId, targetIds - remaining, result);
      hide *;
      while remaining != {}
        invariant remaining <= targetIds
        invariant Answers(g, sourceId, targetIds - remaining, result)
        invariant forall done, t :: done in targetIds && done !in remaining && t in remaining ==> done < t
      {
        var targetId := Smallest(remaining);
        var marked, edges; ghost var trail;
        marked, edges, trail := GetReverseReachable(targetId, reverse, {}, [], g, log, []);
        TrailIsExact(g, sourceId, targetId, reverse, log, marked, trail, edges);
        OneMoreAnswer(g, sourceId, targetIds - remaining, result, targetId, edges);
        if edges != [] {
          result := result + [Answer(sourceId, targetId, edges)];
        }
        assert targetIds - (remaining - {targetId}) == targetIds - remaining + {targetId};
        remaining := remaining - {targetId};
      }
      assert targetIds - {} == targetIds;
    }
  }

  datatype Answer = Answer(source: Id, target: Id, edges: seq<Id>)

  /** One answer for every target with an entry on a path from s, in ascending order of the targets. */
  ghost predicate Answers(g: Graph, s: Id, targets: set<Id>, result: seq<Answer>) {
    && (forall a :: a in result ==>
         a.source == s && a.target in targets && a.edges != [] && ExactEdges(g, s, a.target, a.edges))
    && (forall i, j :: 0 <= i < j < |result| ==> result[i].target < result[j].target)
    && (forall t, slot :: t in targets && OnPath(g, s, t, slot) ==> exists a :: a in result && a.target == t)
  }

  lemma OneMoreAnswer(g: Graph, s: Id, targets: set<Id>, result: seq<Answer>, t: Id, edges: seq<Id>)
    requires Answers(g, s, targets, result) && ExactEdges(g, s, t, edges)
    requires forall done :: done in targets ==> done < t
    ensures Answers(g, s, targets + {t}, if edges == [] then result else result + [Answer(s, t, edges)])
  {
    var trail :| Enumerates(g, s, t, trail, edges);
    var result' := if edges == [] then result else result + [Answer(s, t, edges)];
    forall i | 0 <= i < |result|
      ensures result[i].target < t
    {
      assert result[i] in result;
    }
    forall t', slot | t' in targets + {t} && OnPath(g, s, t', slot)
      ensures exists a :: a in result' && a.target == t'
    {
      if t' == t {
        assert slot in trail;
        assert Answer(s, t, edges) in result';
      } else {
        var a :| a in result && a.target == t';
        assert a in result';
      }
    }
  }

  method Smallest(ids: set<Id>) returns (least: Id)
    requires ids != {}
    ensures least in ids && forall id :: id in ids ==> least <= id
  {
    least :| least in ids;
    var rest := ids - {least};
    while rest != {}
      invariant least in ids && rest <= ids
      invariant forall id :: id in ids && id !in rest ==> least <= id
    {
      var id :| id in rest;
      if id < least {
        least := id;
      }
      rest := rest - {id};
    }
  }

  ghost function WithNode(g: Graph, id: Id): Graph {
    if id in g then g else g[id := []]
  }

  ghost function WithEntry(g: Graph, from: Id, entry: Entry): Graph {
    var g' := WithNode(WithNode(g, from), entry.base);
    g'[from := g'[from] + [entry]]
  }

  // ---------- backwards from the target ----------

  ghost predicate Labels(g: Graph, trail: seq<Slot>, edges: seq<Id>) {
    && |trail| == |edges|
    && forall k :: 0 <= k < |trail| ==> IsSlot(g, trail[k]) && edges[k] == EdgeOf(g, trail[k])
  }

  ghost predicate Leads(g: Graph, slot: Slot, into: set<Id>) {
    IsSlot(g, slot) && BaseOf(g, slot) in into
  }

  ghost predicate AllLead(g: Graph, trail: seq<Slot>, into: set<Id>) {
    forall slot :: slot in trail ==> Leads(g, slot, into)
  }

  /** What a search from `id` has added: the logged entries into each newly marked node, once. */
  ghost predicate Gathered(g: Graph, log: seq<Slot>, id: Id, marked0: set<Id>, trail0: seq<Slot>,
                           marked: set<Id>, trail: seq<Slot>, edges: seq<Id>) {
    && marked0 <= marked && id in marked
    && NoDuplicates(trail) && Labels(g, trail, edges)
    && (forall slot :: slot in trail <==> (slot in trail0 || (slot in log && Leads(g, slot, marked - marked0))))
    && (forall slot :: slot in trail && slot !in trail0 ==> slot.node in marked)
    && (forall w :: w in marked - marked0 ==> Reaches(Arcs(g), w, id))
  }

  /** The same in the middle of the loop over the entries into `id`. */
  ghost predicate Gathering(g: Graph, log: seq<Slot>, id: Id, k: nat, marked0: set<Id>, trail0: seq<Slot>,
                            marked: set<Id>, trail: seq<Slot>, edges: seq<Id>)
    requires SlotsOf(g, log)
  {
    && k <= |Into(g, log, id)|
    && marked0 <= marked && id in marked && id !in marked0
    && NoDuplicates(trail) && Labels(g, trail, edges) && AllLead(g, trail0, marked0)
    && (forall slot :: slot in trail <==>
         (slot in trail0 || (slot in log && Leads(g, slot, marked - marked0 - {id})) || slot in Into(g, log, id)[..k]))
    && (forall slot :: slot in trail && slot !in trail0 ==> slot.node in marked)
    && (forall w :: w in marked - marked0 ==> Reaches(Arcs(g), w, id))
  }

  lemma GatherStart(g: Graph, log: seq<Slot>, id: Id, marked0: set<Id>, trail0: seq<Slot>, edges0: seq<Id>)
    requires SlotsOf(g, log) && id !in marked0
    requires NoDuplicates(trail0) && Labels(g, trail0, edges0) && AllLead(g, trail0, marked0)
    ensures Gathering(g, log, id, 0, marked0, trail0, marked0 + {id}, trail0, edges0)
  {
    ReachesSelf(Arcs(g), id);
    assert marked0 + {id} - marked0 - {id} == {};
  }

  /** The next entry may be pushed: it is not in the trail yet. */
  lemma GatherPush(g: Graph, log: seq<Slot>, id: Id, k: nat, marked0: set<Id>, trail0: seq<Slot>,
                   marked: set<Id>, trail: seq<Slot>, edges: seq<Id>)
    requires SlotsOf(g, log) && NoDuplicates(log)
    requires Gathering(g, log, id, k, marked0, trail0, marked, trail, edges) && k < |Into(g, log, id)|
    ensures var slot := Into(g, log, id)[k];
            && slot in log && IsSlot(g, slot) && slot !in trail && NoDuplicates(trail + [slot])
            && Labels(g, trail + [slot], edges + [EdgeOf(g, slot)]) && AllLead(g, trail + [slot], marked)
            && (slot.node, id) in Arcs(g)
  {
    var into := Into(g, log, id);
    IntoNoDuplicates(g, log, id);
    assert into[k] in into && BaseOf(g, into[k]) == id;
    assert into[k] !in into[..k];
    LogGrows(trail, into[k]);
  }

  lemma GatherStep(g: Graph, log: seq<Slot>, id: Id, k: nat, marked0: set<Id>, trail0: seq<Slot>,
                   marked: set<Id>, trail: seq<Slot>, edges: seq<Id>,
                   marked2: set<Id>, trail2: seq<Slot>, edges2: seq<Id>)
    requires SlotsOf(g, log) && NoDuplicates(log)
    requires Gathering(g, log, id, k, marked0, trail0, marked, trail, edges) && k < |Into(g, log, id)|
    requires var slot := Into(g, log, id)[k];
             Gathered(g, log, slot.node, marked, trail + [slot], marked2, trail2, edges2)
    ensures Gathering(g, log, id, k + 1, marked0, trail0, marked2, trail2, edges2)
  {
    var into := Into(g, log, id);
    var slot := into[k];
    GatherPush(g, log, id, k, marked0, trail0, marked, trail, edges);
    assert into[..k + 1] == into[..k] + [slot];
    forall w | w in marked2 - marked0
      ensures Reaches(Arcs(g), w, id)
    {
      if w !in marked {
        ReachesStep(Arcs(g), w, slot.node, id);
      }
    }
    forall other
      ensures other in trail2 <==>
        (other in trail0 || (other in log && Leads(g, other, marked2 - marked0 - {id})) || other in into[..k + 1])
    {
      assert other in trail2 <==> (other in trail + [slot] || (other in log && Leads(g, other, marked2 - marked)));
      assert other in trail <==>
        (other in trail0 || (other in log && Leads(g, other, marked - marked0 - {id})) || other in into[..k]);
    }
    forall other | other in trail2 && other !in trail0
      ensures other.node in marked2
    {
      if other != slot && other in trail {
        assert other.node in marked;
      }
    }
  }

  lemma GatherEnd(g: Graph, log: seq<Slot>, id: Id, marked0: set<Id>, trail0: seq<Slot>,
                  marked: set<Id>, trail: seq<Slot>, edges: seq<Id>)
    requires SlotsOf(g, log)
    requires Gathering(g, log, id, |Into(g, log, id)|, marked0, trail0, marked, trail, edges)
    ensures Gathered(g, log, id, marked0, trail0, marked, trail, edges)
  {
    var into := Into(g, log, id);
    assert into[..|into|] == into;
    forall slot
      ensures slot in trail <==> (slot in trail0 || (slot in log && Leads(g, slot, marked - marked0)))
    {
      assert slot in into <==> slot in log && BaseOf(g, slot) == id;
    }
  }

  lemma MarkedGrows(g: Graph, log: seq<Slot>, id: Id, k: nat, marked0: set<Id>, trail0: seq<Slot>,
                    marked: set<Id>, trail: seq<Slot>, edges: seq<Id>)
    requires SlotsOf(g, log) && Gathering(g, log, id, k, marked0, trail0, marked, trail, edges)
    ensures marked0 <= marked && id in marked && NoDuplicates(trail) && Labels(g, trail, edges)
  {
  }

  lemma HasMember<T>(s: seq<T>)
    requires s != []
    ensures exists x :: x in s
  {
    assert s[0] in s;
  }

  lemma NothingInto(g: Graph, reverse: ReverseGraph, log: seq<Slot>, id: Id)
    requires Represents(g, reverse, log) && id !in reverse
    ensures Into(g, log, id) == []
  {
    if Into(g, log, id) != [] {
      HasMember(Into(g, log, id));
    }
  }

  lemma PairFacts(g: Graph, reverse: ReverseGraph, log: seq<Slot>, id: Id, k: nat)
    requires Represents(g, reverse, log) && id in reverse
    ensures |reverse[id]| == |Into(g, log, id)|
    ensures k < |reverse[id]| ==> IsSlot(g, Into(g, log, id)[k]) && Into(g, log, id)[k] in log
    ensures k < |reverse[id]| ==> reverse[id][k] == (Into(g, log, id)[k].node, EdgeOf(g, Into(g, log, id)[k]))
  {
    assert k < |reverse[id]| ==> Into(g, log, id)[k] in Into(g, log, id);
  }

  lemma LoggedNode(log: seq<Slot>, keys: set<Id>, slot: Slot)
    requires LoggedIn(log, keys) && slot in log
    ensures slot.node in keys
  {
  }

  lemma AlreadyMarked(g: Graph, log: seq<Slot>, id: Id, marked0: set<Id>, trail0: seq<Slot>, edges0: seq<Id>)
    requires id in marked0 && NoDuplicates(trail0) && Labels(g, trail0, edges0)
    ensures Gathered(g, log, id, marked0, trail0, marked0, trail0, edges0)
  {
    assert marked0 - marked0 == {};
  }

  /** Marks everything that leads to `nodeId` in the reverse graph, pushing each entry passed. */
  method GetReverseReachable(nodeId: Id, reverse: ReverseGraph, marked0: set<Id>, edges0: seq<Id>,
                             ghost g: Graph, ghost log: seq<Slot>, ghost trail0: seq<Slot>)
    returns (marked: set<Id>, edges: seq<Id>, ghost trail: seq<Slot>)
    requires Represents(g, reverse, log) && NoDuplicates(log) && LoggedIn(log, reverse.Keys)
    requires SlotsOf(g, log) && NoDuplicates(trail0) && Labels(g, trail0, edges0) && AllLead(g, trail0, marked0)
    ensures Gathered(g, log, nodeId, marked0, trail0, marked, trail, edges)
    decreases reverse.Keys + {nodeId} - marked0
  {
    marked, edges, trail := marked0, edges0, trail0;
    hide *;
    if nodeId in marked {
      AlreadyMarked(g, log, nodeId, marked0, trail0, edges0);
      return;
    }
    marked := marked + {nodeId};
    GatherStart(g, log, nodeId, marked0, trail0, edges0);
    if nodeId !in reverse {
      NothingInto(g, reverse, log, nodeId);
      GatherEnd(g, log, nodeId, marked0, trail0, marked, trail, edges);
      return;
    }
    PairFacts(g, reverse, log, nodeId, 0);
    for k := 0 to |reverse[nodeId]|
      invariant Gathering(g, log, nodeId, k, marked0, trail0, marked, trail, edges)
    {
      ghost var marked1, trail1, edges1 := marked, trail, edges;
      PairFacts(g, reverse, log, nodeId, k);
      GatherPush(g, log, nodeId, k, marked0, trail0, marked, trail, edges);
      MarkedGrows(g, log, nodeId, k, marked0, trail0, marked, trail, edges);
      ghost var slot := Into(g, log, nodeId)[k];
      LoggedNode(log, reverse.Keys, slot);
      var node, edge := reverse[nodeId][k].0, reverse[nodeId][k].1;
      edges := edges + [edge];
      marked, edges, trail := GetReverseReachable(node, reverse, marked, edges, g, log, trail + [slot]);
      GatherStep(g, log, nodeId, k, marked0, trail0, marked1, trail1, edges1, marked, trail, edges);
    }
    GatherEnd(g, log, nodeId, marked0, trail0, marked, trail, edges);
  }

  lemma SourceIsMarked(g: Graph, s: Id, t: Id, reverse: ReverseGraph, log: seq<Slot>,
                       marked: set<Id>, trail: seq<Slot>, edges: seq<Id>, slot: Slot)
    requires Subgraph(g, s, reverse, log) && Gathered(g, log, t, {}, [], marked, trail, edges)
    requires IsSlot(g, slot) && Reaches(Arcs(g), s, slot.node) && BaseOf(g, slot) in marked
    ensures slot in trail && slot.node in marked
  {
    assert slot in log && Leads(g, slot, marked - {});
  }

  /** Everything on a walk from a node found in the first search to a marked node is marked. */
  lemma {:induction false} WalkIsMarked(g: Graph, s: Id, t: Id, reverse: ReverseGraph, log: seq<Slot>, marked: set<Id>,
                                        trail: seq<Slot>, edges: seq<Id>, v: Id, x: Id, n: nat)
    requires Subgraph(g, s, reverse, log) && Gathered(g, log, t, {}, [], marked, trail, edges)
    requires Reaches(Arcs(g), s, v) && x in marked && Walk(Arcs(g), v, x, n)
    ensures v in marked
    decreases n
  {
    hide Subgraph;
    hide Gathered;
    hide Reaches;
    if n > 0 {
      var mid :| Walk(Arcs(g), v, mid, n - 1) && (mid, x) in Arcs(g);
      var i :| mid in g && 0 <= i < |g[mid]| && g[mid][i].base == x;
      WalkReaches(g, v, mid, n - 1);
      ReachesTransitive(Arcs(g), s, v, mid);
      SourceIsMarked(g, s, t, reverse, log, marked, trail, edges, Slot(mid, i));
      WalkIsMarked(g, s, t, reverse, log, marked, trail, edges, v, mid, n - 1);
    }
  }

  lemma WalkReaches(g: Graph, a: Id, b: Id, n: nat)
    requires Walk(Arcs(g), a, b, n)
    ensures Reaches(Arcs(g), a, b)
  {
  }

  /** Searching back from t in what is reachable from s finds exactly the entries on paths from s to t. */
  lemma TrailIsExact(g: Graph, s: Id, t: Id, reverse: ReverseGraph, log: seq<Slot>,
                     marked: set<Id>, trail: seq<Slot>, edges: seq<Id>)
    requires Subgraph(g, s, reverse, log)
    requires Gathered(g, log, t, {}, [], marked, trail, edges)
    ensures Enumerates(g, s, t, trail, edges)
    ensures ExactEdges(g, s, t, edges)
  {
    forall slot
      ensures slot in trail <==> OnPath(g, s, t, slot)
    {
      if slot in trail {
        assert slot in log && BaseOf(g, slot) in marked - {};
      }
      if OnPath(g, s, t, slot) {
        var base := BaseOf(g, slot);
        assert (slot.node, base) in Arcs(g);
        ReachesStep(Arcs(g), s, slot.node, base);
        var n: nat :| Walk(Arcs(g), base, t, n);
        WalkIsMarked(g, s, t, reverse, log, marked, trail, edges, base, t, n);
        SourceIsMarked(g, s, t, reverse, log, marked, trail, edges, slot);
      }
    }
    assert Enumerates(g, s, t, trail, edges);
  }

  /** No entry starts from a node the cache does not know. */
  lemma NothingFromOutside(g: Graph, s: Id, t: Id, slot: Slot)
    requires s !in g
    ensures !OnPath(g, s, t, slot)
  {
    if OnPath(g, s, t, slot) {
      assert Closed(Arcs(g), {s});
      ClosedKeepsReachable(Arcs(g), {s}, s, slot.node);
    }
  }
}
