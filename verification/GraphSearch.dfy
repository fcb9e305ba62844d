/** The host's neighbourhood query: a breadth-first search bounded by a depth and a node limit. */
module GraphSearch {
  import opened Wrappers
  import opened Reachability
  import opened TextOrder
  import opened GraphSnapshots

  type Arcs = set<(Id, Id)>

  predicate AllowedKind(kinds: set<string>, kind: string) {
    kinds == {} || kind in kinds
  }

  /** The steps a search may take: along, against, or both ways over the edges of the wanted kinds. */
  ghost function StepsOf(s: Snapshot, direction: string, kinds: set<string>): Arcs {
    (set e | e in s.edges && direction != "in" && AllowedKind(kinds, s.edges[e].kind) :: (s.edges[e].source, s.edges[e].target)) +
    (set e | e in s.edges && direction != "out" && AllowedKind(kinds, s.edges[e].kind) :: (s.edges[e].target, s.edges[e].source))
  }

  /** Outwards a search follows edges from source to target, inwards from target to source, and otherwise both ways. */
  lemma StepsMean(s: Snapshot, kinds: set<string>, a: Id, b: Id)
    ensures (a, b) in StepsOf(s, "out", kinds) <==>
              exists e :: e in s.edges && s.edges[e].source == a && s.edges[e].target == b && (kinds == {} || s.edges[e].kind in kinds)
    ensures (a, b) in StepsOf(s, "in", kinds) <==> (b, a) in StepsOf(s, "out", kinds)
    ensures (a, b) in StepsOf(s, "both", kinds) <==> (a, b) in StepsOf(s, "out", kinds) || (a, b) in StepsOf(s, "in", kinds)
  {
  }

  /** b is d steps from a, and no fewer. */
  ghost predicate AtDistance(arcs: Arcs, a: Id, b: Id, d: nat) {
    Walk(arcs, a, b, d) && forall k: nat :: k < d ==> !Walk(arcs, a, b, k)
  }

  ghost predicate Within(arcs: Arcs, a: Id, b: Id, depth: nat) {
    exists k: nat :: k <= depth && Walk(arcs, a, b, k)
  }

  ghost predicate NoDuplicates(order: seq<Id>) {
    forall i, j :: 0 <= i < j < |order| ==> order[i] != order[j]
  }

  // ---------- what a result promises ----------

  /** Nodes come out nearest first, and nothing nearer than a selected node is left out. */
  ghost predicate NearestFirst(arcs: Arcs, root: Id, depth: nat, order: seq<Id>) {
    && order != [] && order[0] == root && NoDuplicates(order)
    && (forall x :: x in order ==> exists d: nat :: d <= depth && AtDistance(arcs, root, x, d))
    && (forall i, j, d: nat, e: nat :: 0 <= i < j < |order| && AtDistance(arcs, root, order[i], d) && AtDistance(arcs, root, order[j], e) ==> d <= e)
    && (forall x, d: nat, y, k: nat :: x in order && AtDistance(arcs, root, x, d) && k < d && Walk(arcs, root, y, k) ==> y in order)
  }

  /** y is one step from a selected node that is nearer than the depth. */
  ghost predicate Adjacent(arcs: Arcs, root: Id, depth: nat, order: seq<Id>, y: Id) {
    exists x :: x in order && (x, y) in arcs && NearerThan(arcs, root, x, depth)
  }

  ghost predicate NearerThan(arcs: Arcs, root: Id, x: Id, depth: nat) {
    exists d: nat :: d < depth && AtDistance(arcs, root, x, d)
  }

  /** Exactly the nodes next to the selected ones that are not selected themselves; there are any only if the limit
      was reached. */
  ghost predicate Frontier(arcs: Arcs, root: Id, depth: nat, limit: nat, order: seq<Id>, frontier: set<Id>) {
    && (forall y :: y in frontier <==> y !in order && Adjacent(arcs, root, depth, order, y))
    && (frontier != {} ==> |order| == limit)
  }

  /** Everything within the depth is selected. */
  ghost predicate WholeBall(arcs: Arcs, root: Id, depth: nat, order: seq<Id>) {
    forall x :: Within(arcs, root, x, depth) ==> x in order
  }

  // ---------- the state of the search ----------

  ghost predicate Distances(arcs: Arcs, root: Id, depth: nat, order: seq<Id>, dist: map<Id, nat>) {
    && order != [] && order[0] == root && NoDuplicates(order)
    && (forall x :: x in dist <==> x in order)
    && root in dist && dist[root] == 0
    && (forall x :: x in dist ==> dist[x] <= depth && AtDistance(arcs, root, x, dist[x]))
  }

  /** Recorded distances never decrease along the order, and span at most two levels from the node in hand. */
  ghost predicate Levels(order: seq<Id>, dist: map<Id, nat>, h: nat) {
    && (forall x :: x in order ==> x in dist)
    && (forall i, j :: 0 <= i < j < |order| ==> dist[order[i]] <= dist[order[j]])
    && (h < |order| ==> forall x :: x in order ==> dist[x] <= dist[order[h]] + 1)
  }

  /** The neighbours of the first h nodes have all been selected or put on the frontier. */
  ghost predicate Expanded(arcs: Arcs, depth: nat, order: seq<Id>, dist: map<Id, nat>, h: nat, frontier: set<Id>) {
    && h <= |order|
    && (forall x :: x in order ==> x in dist)
    && forall i, y :: 0 <= i < h && dist[order[i]] < depth && (order[i], y) in arcs ==> y in dist || y in frontier
  }

  /** What is on the frontier was refused as a neighbour of a selected node. */
  ghost predicate Refused(arcs: Arcs, depth: nat, limit: nat, order: seq<Id>, dist: map<Id, nat>, frontier: set<Id>) {
    && (forall y :: y in frontier ==> y !in order && exists x :: x in dist && dist[x] < depth && (x, y) in arcs)
    && (frontier != {} ==> |order| == limit)
  }

  ghost predicate Searching(arcs: Arcs, root: Id, depth: nat, limit: nat, order: seq<Id>, dist: map<Id, nat>, h: nat, frontier: set<Id>) {
    && Distances(arcs, root, depth, order, dist) && Levels(order, dist, h) && |order| <= limit
    && Refused(arcs, depth, limit, order, dist, frontier)
    && Expanded(arcs, depth, order, dist, h, frontier)
    && (forall x, y, k: nat :: x in dist && k < dist[x] && Walk(arcs, root, y, k) ==> y in dist)
  }

  /** Everything no farther than the node in hand has been selected. */
  lemma {:induction false} NearSelected(arcs: Arcs, root: Id, depth: nat, order: seq<Id>, dist: map<Id, nat>, h: nat, y: Id, k: nat)
    requires Distances(arcs, root, depth, order, dist) && Levels(order, dist, h) && Expanded(arcs, depth, order, dist, h, {})
    requires h < |order| && k <= dist[order[h]] && Walk(arcs, root, y, k)
    ensures y in dist
    decreases k
  {
    if k > 0 {
      var mid :| Walk(arcs, root, mid, k - 1) && (mid, y) in arcs;
      NearSelected(arcs, root, depth, order, dist, h, mid, k - 1);
      var i :| 0 <= i < |order| && order[i] == mid;
      assert dist[mid] <= k - 1;
      assert order[h] in order;
      assert i < h;
    }
  }

  lemma StartSearch(arcs: Arcs, root: Id, depth: nat, limit: nat)
    requires limit >= 1
    ensures Searching(arcs, root, depth, limit, [root], map[root := 0], 0, {})
  {
    assert AtDistance(arcs, root, root, 0);
  }

  /** A neighbour of the node in hand that is not selected yet is one level farther. */
  lemma NewDistance(arcs: Arcs, root: Id, depth: nat, limit: nat, order: seq<Id>, dist: map<Id, nat>, h: nat, y: Id)
    requires Searching(arcs, root, depth, limit, order, dist, h, {})
    requires h < |order| && dist[order[h]] < depth && (order[h], y) in arcs && y !in order
    ensures AtDistance(arcs, root, y, dist[order[h]] + 1)
  {
    var d := dist[order[h]];
    assert order[h] in dist;
    assert Walk(arcs, root, order[h], d);
    WalkStep(arcs, root, order[h], y, d);
    forall k: nat | k < d + 1
      ensures !Walk(arcs, root, y, k)
    {
      if Walk(arcs, root, y, k) {
        NearSelected(arcs, root, depth, order, dist, h, y, k);
      }
    }
  }

  lemma LevelsMore(order: seq<Id>, dist: map<Id, nat>, h: nat, y: Id)
    requires Levels(order, dist, h) && h < |order| && y !in order
    ensures Levels(order + [y], dist[y := dist[order[h]] + 1], h)
  {
    var order', dist' := order + [y], dist[y := dist[order[h]] + 1];
    forall i, j | 0 <= i < j < |order'|
      ensures dist'[order'[i]] <= dist'[order'[j]]
    {
      assert order'[i] in order;
      assert j < |order| ==> order'[j] in order;
    }
    assert order[h] in order;
  }

  lemma DistancesMore(arcs: Arcs, root: Id, depth: nat, order: seq<Id>, dist: map<Id, nat>, y: Id, d: nat)
    requires Distances(arcs, root, depth, order, dist) && y !in order && d <= depth && AtDistance(arcs, root, y, d)
    ensures Distances(arcs, root, depth, order + [y], dist[y := d])
  {
  }

  lemma SelectNode(arcs: Arcs, root: Id, depth: nat, limit: nat, order: seq<Id>, dist: map<Id, nat>, h: nat, y: Id)
    requires Searching(arcs, root, depth, limit, order, dist, h, {})
    requires h < |order| && dist[order[h]] < depth && (order[h], y) in arcs && y !in order && |order| < limit
    ensures Searching(arcs, root, depth, limit, order + [y], dist[y := dist[order[h]] + 1], h, {})
  {
    var d := dist[order[h]];
    var dist' := dist[y := d + 1];
    NewDistance(arcs, root, depth, limit, order, dist, h, y);
    LevelsMore(order, dist, h, y);
    DistancesMore(arcs, root, depth, order, dist, y, d + 1);
    forall x, z, k: nat | x in dist' && k < dist'[x] && Walk(arcs, root, z, k)
      ensures z in dist'
    {
      if x == y {
        NearSelected(arcs, root, depth, order, dist, h, z, k);
      }
    }
    ExpandedMore(arcs, depth, order, dist, h, y, d + 1);
    hide Distances, Levels, AtDistance, Expanded;
  }

  lemma ExpandedMore(arcs: Arcs, depth: nat, order: seq<Id>, dist: map<Id, nat>, h: nat, y: Id, d: nat)
    requires Expanded(arcs, depth, order, dist, h, {}) && y !in order
    ensures Expanded(arcs, depth, order + [y], dist[y := d], h, {})
  {
    forall i | 0 <= i < h
      ensures (order + [y])[i] == order[i] && order[i] != y
    {
      assert order[i] in order;
    }
  }

  lemma RefuseNode(arcs: Arcs, root: Id, depth: nat, limit: nat, order: seq<Id>, dist: map<Id, nat>, h: nat, frontier: set<Id>, y: Id)
    requires Searching(arcs, root, depth, limit, order, dist, h, frontier)
    requires h < |order| && dist[order[h]] < depth && (order[h], y) in arcs && y !in order && |order| >= limit
    ensures Searching(arcs, root, depth, limit, order, dist, h, frontier + {y})
  {
    assert order[h] in order;
    assert order[h] in dist && dist[order[h]] < depth && (order[h], y) in arcs;
  }

  /** The node in hand is done when its neighbours are selected, or it is at the full depth. */
  lemma NextNode(arcs: Arcs, root: Id, depth: nat, limit: nat, order: seq<Id>, dist: map<Id, nat>, h: nat, frontier: set<Id>)
    requires Searching(arcs, root, depth, limit, order, dist, h, frontier) && h < |order|
    requires dist[order[h]] < depth ==> forall y :: (order[h], y) in arcs ==> y in dist || y in frontier
    ensures Searching(arcs, root, depth, limit, order, dist, h + 1, frontier)
  {
    if h + 1 < |order| {
      assert dist[order[h]] <= dist[order[h + 1]];
    }
  }

  lemma {:induction false} BallSelected(arcs: Arcs, root: Id, depth: nat, order: seq<Id>, dist: map<Id, nat>, y: Id, k: nat)
    requires Distances(arcs, root, depth, order, dist) && Expanded(arcs, depth, order, dist, |order|, {})
    requires k <= depth && Walk(arcs, root, y, k)
    ensures y in dist
    decreases k
  {
    if k > 0 {
      var mid :| Walk(arcs, root, mid, k - 1) && (mid, y) in arcs;
      BallSelected(arcs, root, depth, order, dist, mid, k - 1);
      assert dist[mid] <= k - 1;
    }
  }

  lemma EndSearch(arcs: Arcs, root: Id, depth: nat, limit: nat, order: seq<Id>, dist: map<Id, nat>, frontier: set<Id>)
    requires Searching(arcs, root, depth, limit, order, dist, |order|, frontier)
    ensures NearestFirst(arcs, root, depth, order) && Frontier(arcs, root, depth, limit, order, frontier)
    ensures |order| <= limit
    ensures frontier == {} <==> WholeBall(arcs, root, depth, order)
  {
    forall x, d: nat | x in order && AtDistance(arcs, root, x, d)
      ensures d == dist[x]
    {
      assert AtDistance(arcs, root, x, dist[x]);
    }
    forall y
      ensures y in frontier <==> y !in order && Adjacent(arcs, root, depth, order, y)
    {
      FrontierIsAdjacent(arcs, root, depth, limit, order, dist, frontier, y);
    }
    if frontier == {} {
      forall x | Within(arcs, root, x, depth)
        ensures x in order
      {
        var k: nat :| k <= depth && Walk(arcs, root, x, k);
        BallSelected(arcs, root, depth, order, dist, x, k);
      }
    } else {
      var y :| y in frontier;
      var x :| x in dist && dist[x] < depth && (x, y) in arcs;
      WalkStep(arcs, root, x, y, dist[x]);
      assert Within(arcs, root, y, depth) && y !in order;
    }
  }

  lemma FrontierIsAdjacent(arcs: Arcs, root: Id, depth: nat, limit: nat, order: seq<Id>, dist: map<Id, nat>, frontier: set<Id>, y: Id)
    requires Searching(arcs, root, depth, limit, order, dist, |order|, frontier)
    ensures y in frontier <==> y !in order && Adjacent(arcs, root, depth, order, y)
  {
    if y in frontier {
      var x :| x in dist && dist[x] < depth && (x, y) in arcs;
      assert AtDistance(arcs, root, x, dist[x]);
      assert NearerThan(arcs, root, x, depth);
    }
    if y !in order && Adjacent(arcs, root, depth, order, y) {
      var x :| x in order && (x, y) in arcs && NearerThan(arcs, root, x, depth);
      var d: nat :| d < depth && AtDistance(arcs, root, x, d);
      assert AtDistance(arcs, root, x, dist[x]);
      var i :| 0 <= i < |order| && order[i] == x;
    }
  }

  // ---------- edges of the snapshot as steps ----------

  function Other(edge: Edge, id: Id): Id {
    if edge.source == id then edge.target else edge.source
  }

  function EdgesAt(s: Snapshot, direction: string, id: Id): set<Id> {
    (if direction != "in" then Get(s.outgoing, id) else {}) + (if direction != "out" then Get(s.incoming, id) else {})
  }

  lemma EdgeIsStep(s: Snapshot, direction: string, kinds: set<string>, id: Id, e: Id)
    requires Valid(s) && e in EdgesAt(s, direction, id)
    ensures e in s.edges && Other(s.edges[e], id) in s.nodes
    ensures AllowedKind(kinds, s.edges[e].kind) ==> (id, Other(s.edges[e], id)) in StepsOf(s, direction, kinds)
  {
    assert s.edges[e].source in s.nodes && s.edges[e].target in s.nodes;
  }

  lemma StepIsEdge(s: Snapshot, direction: string, kinds: set<string>, id: Id, y: Id) returns (e: Id)
    requires Valid(s) && (id, y) in StepsOf(s, direction, kinds) && y != id
    ensures e in EdgesAt(s, direction, id) && e in s.edges
    ensures AllowedKind(kinds, s.edges[e].kind) && Other(s.edges[e], id) == y
  {
    if f :| f in s.edges && direction != "in" && AllowedKind(kinds, s.edges[f].kind) && (s.edges[f].source, s.edges[f].target) == (id, y) {
      e := f;
    } else {
      e :| e in s.edges && direction != "out" && AllowedKind(kinds, s.edges[e].kind) && (s.edges[e].target, s.edges[e].source) == (id, y);
    }
  }

  /** The first i edges of the node in hand have been followed. */
  ghost predicate Followed(s: Snapshot, kinds: set<string>, id: Id, edgeIds: seq<Id>, i: nat, reached: set<Id>) {
    && i <= |edgeIds|
    && forall j :: 0 <= j < i ==>
         edgeIds[j] in s.edges && (AllowedKind(kinds, s.edges[edgeIds[j]].kind) ==> Other(s.edges[edgeIds[j]], id) in reached)
  }

  lemma AllFollowed(s: Snapshot, direction: string, kinds: set<string>, id: Id, edgeIds: seq<Id>, reached: set<Id>)
    requires Valid(s) && Lists(edgeIds, EdgesAt(s, direction, id)) && id in reached
    requires Followed(s, kinds, id, edgeIds, |edgeIds|, reached)
    ensures forall y :: (id, y) in StepsOf(s, direction, kinds) ==> y in reached
  {
    forall y | (id, y) in StepsOf(s, direction, kinds)
      ensures y in reached
    {
      if y != id {
        var e := StepIsEdge(s, direction, kinds, id, y);
        var j :| 0 <= j < |edgeIds| && edgeIds[j] == e;
      }
    }
  }

  // ---------- the query ----------

  datatype Neighborhood = Neighborhood(nodes: seq<Node>, edges: seq<Edge>, truncated: bool, frontierNodeIds: seq<Id>)

  function NodeIds(nodes: seq<Node>): seq<Id> {
    seq(|nodes|, i requires 0 <= i < |nodes| => nodes[i].id)
  }

  function EdgeIds(edges: seq<Edge>): seq<Id> {
    seq(|edges|, i requires 0 <= i < |edges| => edges[i].id)
  }

  predicate ValidQuery(s: Snapshot, root: Id, depth: int, direction: string, limit: int) {
    root in s.nodes && 0 <= depth <= 8 && direction in {"in", "out", "both"} && 1 <= limit <= 1000
  }

  /** The edges returned are those of the wanted kinds between two selected nodes, by ascending id. */
  ghost predicate EdgesBetween(s: Snapshot, kinds: set<string>, order: seq<Id>, edges: seq<Edge>) {
    && (forall e :: e in edges ==> e.id in s.edges && s.edges[e.id] == e)
    && Ascending(EdgeIds(edges))
    && (forall e :: e in edges ==> e.source in order && e.target in order && AllowedKind(kinds, e.kind))
    && (forall e :: e in s.edges && s.edges[e].source in order && s.edges[e].target in order && AllowedKind(kinds, s.edges[e].kind)
          ==> s.edges[e] in edges)
  }

  /** The exact answer to a query. */
  ghost predicate Answers(s: Snapshot, root: Id, depth: nat, direction: string, limit: nat, kinds: set<string>, r: Neighborhood) {
    var arcs, order := StepsOf(s, direction, kinds), NodeIds(r.nodes);
    && (forall n :: n in r.nodes ==> n.id in s.nodes && s.nodes[n.id] == n)
    && NearestFirst(arcs, root, depth, order) && |order| <= limit
    && Ascending(r.frontierNodeIds)
    && Frontier(arcs, root, depth, limit, order, set x | x in r.frontierNodeIds)
    && r.truncated == (r.frontierNodeIds != [])
    && (r.truncated <==> !WholeBall(arcs, root, depth, order))
    && EdgesBetween(s, kinds, order, r.edges)
  }

  /** The queue holds what comes after the node in hand, with the recorded distances. */
  ghost predicate Queued(order: seq<Id>, dist: map<Id, nat>, h: nat, queue: seq<(Id, nat)>) {
    && h <= |order| && |queue| == |order| - h
    && forall k :: 0 <= k < |queue| ==>
         queue[k].0 == order[h + k] && queue[k].0 in order && queue[k].0 in dist && queue[k].1 == dist[queue[k].0]
  }

  lemma {:induction false} SelectedSize(order: seq<Id>, selected: set<Id>)
    requires NoDuplicates(order) && Lists(order, selected)
    ensures |selected| == |order|
  {
    if order != [] {
      var last := order[|order| - 1];
      assert last in order;
      assert order == order[..|order| - 1] + [last];
      SelectedSize(order[..|order| - 1], selected - {last});
    }
  }

  /** The whole state of the search while the node at position h is in hand. */
  ghost predicate Expanding(s: Snapshot, arcs: Arcs, root: Id, depth: nat, limit: nat, h: nat, nodeId: Id, currentDepth: nat,
                            selected: set<Id>, order: seq<Id>, queue: seq<(Id, nat)>, frontier: set<Id>, dist: map<Id, nat>) {
    && Searching(arcs, root, depth, limit, order, dist, h, frontier)
    && h < |order| && order[h] == nodeId && nodeId in dist && dist[nodeId] == currentDepth
    && Lists(order, selected) && |selected| == |order| && Queued(order, dist, h + 1, queue)
    && (forall x :: x in order ==> x in s.nodes)
  }

  lemma ExpandSelect(s: Snapshot, arcs: Arcs, root: Id, depth: nat, limit: nat, h: nat, nodeId: Id, currentDepth: nat,
                     selected: set<Id>, order: seq<Id>, queue: seq<(Id, nat)>, frontier: set<Id>, dist: map<Id, nat>, other: Id)
    requires Expanding(s, arcs, root, depth, limit, h, nodeId, currentDepth, selected, order, queue, frontier, dist)
    requires currentDepth < depth && (nodeId, other) in arcs && other in s.nodes && other !in selected && |selected| < limit
    ensures Expanding(s, arcs, root, depth, limit, h, nodeId, currentDepth, selected + {other}, order + [other],
                      queue + [(other, currentDepth + 1)], frontier, dist[other := currentDepth + 1])
  {
    hide Searching;
    assert order[h] in order;
    BelowLimit(arcs, root, depth, limit, order, dist, h, frontier);
    SelectNode(arcs, root, depth, limit, order, dist, h, other);
    QueuedMore(order, dist, h + 1, queue, other, currentDepth + 1);
    hide Queued;
  }

  lemma QueuedMore(order: seq<Id>, dist: map<Id, nat>, h: nat, queue: seq<(Id, nat)>, y: Id, d: nat)
    requires Queued(order, dist, h, queue) && y !in order
    ensures Queued(order + [y], dist[y := d], h, queue + [(y, d)])
  {
  }

  lemma BelowLimit(arcs: Arcs, root: Id, depth: nat, limit: nat, order: seq<Id>, dist: map<Id, nat>, h: nat, frontier: set<Id>)
    requires Searching(arcs, root, depth, limit, order, dist, h, frontier) && |order| < limit
    ensures frontier == {}
  {
  }

  lemma ExpandRefuse(s: Snapshot, arcs: Arcs, root: Id, depth: nat, limit: nat, h: nat, nodeId: Id, currentDepth: nat,
                     selected: set<Id>, order: seq<Id>, queue: seq<(Id, nat)>, frontier: set<Id>, dist: map<Id, nat>, other: Id)
    requires Expanding(s, arcs, root, depth, limit, h, nodeId, currentDepth, selected, order, queue, frontier, dist)
    requires currentDepth < depth && (nodeId, other) in arcs && other !in selected && |selected| >= limit
    ensures Expanding(s, arcs, root, depth, limit, h, nodeId, currentDepth, selected, order, queue, frontier + {other}, dist)
  {
    RefuseNode(arcs, root, depth, limit, order, dist, h, frontier, other);
  }

  lemma ExpandEnd(s: Snapshot, direction: string, kinds: set<string>, root: Id, depth: nat, limit: nat, h: nat, nodeId: Id,
                  currentDepth: nat, selected: set<Id>, order: seq<Id>, queue: seq<(Id, nat)>, frontier: set<Id>,
                  dist: map<Id, nat>, edgeIds: seq<Id>)
    requires Valid(s) && Lists(edgeIds, EdgesAt(s, direction, nodeId))
    requires Expanding(s, StepsOf(s, direction, kinds), root, depth, limit, h, nodeId, currentDepth, selected, order, queue, frontier, dist)
    requires currentDepth < depth ==> Followed(s, kinds, nodeId, edgeIds, |edgeIds|, selected + frontier)
    ensures Waiting(s, StepsOf(s, direction, kinds), root, depth, limit, h + 1, selected, order, queue, frontier, dist)
  {
    if currentDepth < depth {
      assert order[h] in order;
      AllFollowed(s, direction, kinds, nodeId, edgeIds, selected + frontier);
    }
    NextNode(StepsOf(s, direction, kinds), root, depth, limit, order, dist, h, frontier);
  }

  /** The state of the search between two nodes. */
  ghost predicate Waiting(s: Snapshot, arcs: Arcs, root: Id, depth: nat, limit: nat, h: nat,
                          selected: set<Id>, order: seq<Id>, queue: seq<(Id, nat)>, frontier: set<Id>, dist: map<Id, nat>) {
    && Searching(arcs, root, depth, limit, order, dist, h, frontier)
    && Lists(order, selected) && |selected| == |order| && Queued(order, dist, h, queue)
    && (forall x :: x in order ==> x in s.nodes)
  }

  lemma TakeNode(s: Snapshot, arcs: Arcs, root: Id, depth: nat, limit: nat, h: nat,
                 selected: set<Id>, order: seq<Id>, queue: seq<(Id, nat)>, frontier: set<Id>, dist: map<Id, nat>)
    requires Waiting(s, arcs, root, depth, limit, h, selected, order, queue, frontier, dist) && queue != []
    ensures Expanding(s, arcs, root, depth, limit, h, queue[0].0, queue[0].1, selected, order, queue[1..], frontier, dist)
    ensures queue[0].0 in s.nodes && queue[0].1 <= depth && h < |order| <= limit
  {
    assert queue[0] == (order[h], dist[order[h]]);
    assert order[h] in order;
  }

  lemma FollowedNone(s: Snapshot, kinds: set<string>, id: Id, edgeIds: seq<Id>, reached: set<Id>)
    ensures Followed(s, kinds, id, edgeIds, 0, reached)
  {
  }

  lemma FollowedMore(s: Snapshot, kinds: set<string>, id: Id, edgeIds: seq<Id>, i: nat, reached: set<Id>, more: set<Id>)
    requires i < |edgeIds| && edgeIds[i] in s.edges && Followed(s, kinds, id, edgeIds, i, reached) && reached <= more
    requires AllowedKind(kinds, s.edges[edgeIds[i]].kind) ==> Other(s.edges[edgeIds[i]], id) in more
    ensures Followed(s, kinds, id, edgeIds, i + 1, more)
  {
  }

  lemma EdgeAt(s: Snapshot, direction: string, kinds: set<string>, id: Id, edgeIds: seq<Id>, i: nat)
    requires Valid(s) && Lists(edgeIds, EdgesAt(s, direction, id)) && i < |edgeIds|
    ensures edgeIds[i] in s.edges && Other(s.edges[edgeIds[i]], id) in s.nodes
    ensures AllowedKind(kinds, s.edges[edgeIds[i]].kind) ==> (id, Other(s.edges[edgeIds[i]], id)) in StepsOf(s, direction, kinds)
  {
    EdgeIsStep(s, direction, kinds, id, edgeIds[i]);
  }

  /** Follows the edges of the node in hand in the order of their ids. */
  method ExpandNode(s: Snapshot, edgeIds: seq<Id>, kinds: set<string>, limit: nat, nodeId: Id, currentDepth: nat,
                    selected0: set<Id>, order0: seq<Id>, queue0: seq<(Id, nat)>, frontier0: set<Id>,
                    ghost direction: string, ghost root: Id, ghost depth: nat, ghost dist0: map<Id, nat>, ghost h: nat)
    returns (selected: set<Id>, order: seq<Id>, queue: seq<(Id, nat)>, frontier: set<Id>, ghost dist: map<Id, nat>)
    requires Valid(s) && Lists(edgeIds, EdgesAt(s, direction, nodeId)) && currentDepth < depth
    requires Expanding(s, StepsOf(s, direction, kinds), root, depth, limit, h, nodeId, currentDepth,
                       selected0, order0, queue0, frontier0, dist0)
    ensures Waiting(s, StepsOf(s, direction, kinds), root, depth, limit, h + 1, selected, order, queue, frontier, dist)
  {
    hide *;
    ghost var arcs := StepsOf(s, direction, kinds);
    selected, order, queue, frontier, dist := selected0, order0, queue0, frontier0, dist0;
    FollowedNone(s, kinds, nodeId, edgeIds, selected + frontier);
    for i := 0 to |edgeIds|
      invariant Expanding(s, arcs, root, depth, limit, h, nodeId, currentDepth, selected, order, queue, frontier, dist)
      invariant Followed(s, kinds, nodeId, edgeIds, i, selected + frontier)
    {
      ghost var reached := selected + frontier;
      EdgeAt(s, direction, kinds, nodeId, edgeIds, i);
      var edge := s.edges[edgeIds[i]];
      var other := Other(edge, nodeId);
      if AllowedKind(kinds, edge.kind) {
        if other !in selected {
          if |selected| >= limit {
            ExpandRefuse(s, arcs, root, depth, limit, h, nodeId, currentDepth, selected, order, queue, frontier, dist, other);
            frontier := frontier + {other};
          } else {
            ExpandSelect(s, arcs, root, depth, limit, h, nodeId, currentDepth, selected, order, queue, frontier, dist, other);
            selected := selected + {other};
            order := order + [other];
            queue := queue + [(other, currentDepth + 1)];
            dist := dist[other := currentDepth + 1];
          }
        }
      }
      FollowedMore(s, kinds, nodeId, edgeIds, i, reached, selected + frontier);
    }
    ExpandEnd(s, direction, kinds, root, depth, limit, h, nodeId, currentDepth, selected, order, queue, frontier, dist, edgeIds);
  }

  lemma StartWaiting(s: Snapshot, arcs: Arcs, root: Id, depth: nat, limit: nat)
    requires limit >= 1 && root in s.nodes
    ensures Waiting(s, arcs, root, depth, limit, 0, {root}, [root], [(root, 0)], {}, map[root := 0])
  {
    StartSearch(arcs, root, depth, limit);
  }

  lemma EndWaiting(s: Snapshot, arcs: Arcs, root: Id, depth: nat, limit: nat, h: nat,
                   selected: set<Id>, order: seq<Id>, frontier: set<Id>, dist: map<Id, nat>)
    requires Waiting(s, arcs, root, depth, limit, h, selected, order, [], frontier, dist)
    ensures NearestFirst(arcs, root, depth, order) && Frontier(arcs, root, depth, limit, order, frontier)
    ensures |order| <= limit && Lists(order, selected) && forall x :: x in order ==> x in s.nodes
    ensures frontier == {} <==> WholeBall(arcs, root, depth, order)
  {
    EndSearch(arcs, root, depth, limit, order, dist, frontier);
  }

  /** The breadth-first search itself. */
  method Search(s: Snapshot, root: Id, depth: nat, direction: string, limit: nat, kinds: set<string>)
    returns (selected: set<Id>, order: seq<Id>, frontier: set<Id>)
    requires Valid(s) && root in s.nodes && limit >= 1
    ensures NearestFirst(StepsOf(s, direction, kinds), root, depth, order) && |order| <= limit
    ensures Frontier(StepsOf(s, direction, kinds), root, depth, limit, order, frontier)
    ensures frontier == {} <==> WholeBall(StepsOf(s, direction, kinds), root, depth, order)
    ensures Lists(order, selected) && forall x :: x in order ==> x in s.nodes
  {
    ghost var arcs := StepsOf(s, direction, kinds);
    StartWaiting(s, arcs, root, depth, limit);
    selected, order, frontier := {root}, [root], {};
    var queue: seq<(Id, nat)> := [(root, 0)];
    ghost var dist: map<Id, nat> := map[root := 0];
    ghost var h := 0;
    hide *;
    while queue != []
      invariant Waiting(s, arcs, root, depth, limit, h, selected, order, queue, frontier, dist)
      decreases limit - h
    {
      TakeNode(s, arcs, root, depth, limit, h, selected, order, queue, frontier, dist);
      var nodeId, currentDepth := queue[0].0, queue[0].1;
      queue := queue[1..];
      var edgeIds := SortIds(EdgesAt(s, direction, nodeId));
      if currentDepth == depth {
        ExpandEnd(s, direction, kinds, root, depth, limit, h, nodeId, currentDepth, selected, order, queue, frontier, dist, edgeIds);
      } else {
        selected, order, queue, frontier, dist := ExpandNode(s, edgeIds, kinds, limit, nodeId, currentDepth,
          selected, order, queue, frontier, direction, root, depth, dist, h);
      }
      h := h + 1;
    }
    EndWaiting(s, arcs, root, depth, limit, h, selected, order, frontier, dist);
  }

  predicate Selected(edge: Edge, selected: set<Id>, kinds: set<string>) {
    edge.source in selected && edge.target in selected && AllowedKind(kinds, edge.kind)
  }

  /** The selected ones among the first i edges, in the same order. */
  ghost predicate Chosen(s: Snapshot, selected: set<Id>, kinds: set<string>, ids: seq<Id>, i: nat, edges: seq<Edge>) {
    && i <= |ids| && Ascending(EdgeIds(edges))
    && (forall e :: e in edges ==> e.id in ids[..i] && e.id in s.edges && s.edges[e.id] == e && Selected(e, selected, kinds))
    && (forall id :: id in ids[..i] ==> id in s.edges && (Selected(s.edges[id], selected, kinds) ==> s.edges[id] in edges))
  }

  lemma ChooseNext(s: Snapshot, selected: set<Id>, kinds: set<string>, ids: seq<Id>, i: nat, edges: seq<Edge>)
    requires OwnIds(s.nodes, s.edges) && Ascending(ids) && i < |ids| && ids[i] in s.edges
    requires Chosen(s, selected, kinds, ids, i, edges)
    ensures var edge := s.edges[ids[i]];
            Chosen(s, selected, kinds, ids, i + 1, if Selected(edge, selected, kinds) then edges + [edge] else edges)
  {
    var edge := s.edges[ids[i]];
    assert ids[..i + 1] == ids[..i] + [ids[i]];
    if Selected(edge, selected, kinds) {
      var edges' := edges + [edge];
      assert EdgeIds(edges') == EdgeIds(edges) + [edge.id];
      forall j | 0 <= j < |edges|
        ensures Less(EdgeIds(edges)[j], edge.id)
      {
        assert edges[j] in edges;
        var k :| 0 <= k < i && ids[k] == edges[j].id;
      }
    }
  }

  /** The edges between the selected nodes. */
  method SelectEdges(s: Snapshot, selected: set<Id>, kinds: set<string>, ghost order: seq<Id>) returns (edges: seq<Edge>)
    requires OwnIds(s.nodes, s.edges) && Lists(order, selected)
    ensures EdgesBetween(s, kinds, order, edges)
  {
    var allEdgeIds := SortIds(s.edges.Keys);
    edges := [];
    for i := 0 to |allEdgeIds|
      invariant Chosen(s, selected, kinds, allEdgeIds, i, edges)
    {
      ChooseNext(s, selected, kinds, allEdgeIds, i, edges);
      var edge := s.edges[allEdgeIds[i]];
      if Selected(edge, selected, kinds) {
        edges := edges + [edge];
      }
    }
    assert allEdgeIds[..|allEdgeIds|] == allEdgeIds;
  }

  method LookUp(s: Snapshot, order: seq<Id>) returns (nodes: seq<Node>)
    requires OwnIds(s.nodes, s.edges) && forall x :: x in order ==> x in s.nodes
    ensures NodeIds(nodes) == order && forall n :: n in nodes ==> n.id in s.nodes && s.nodes[n.id] == n
  {
    nodes := [];
    for i := 0 to |order|
      invariant |nodes| == i && forall j :: 0 <= j < i ==> nodes[j].id == order[j] && nodes[j] == s.nodes[order[j]]
    {
      nodes := nodes + [s.nodes[order[i]]];
    }
  }

  lemma ListedSet(ids: seq<Id>, members: set<Id>)
    requires Lists(ids, members)
    ensures (set x | x in ids) == members && (ids == [] <==> members == {})
  {
    assert ids != [] ==> ids[0] in members;
  }

  method Graph(s: Snapshot, root: Id, depth: int, direction: string, limit: int, kinds: set<string>)
    returns (r: Result<Neighborhood>)
    requires Valid(s)
    ensures r.Ok? <==> ValidQuery(s, root, depth, direction, limit)
    ensures r.Ok? ==> Answers(s, root, depth, direction, limit, kinds, r.value)
  {
    if root !in s.nodes {
      return Err("unknown root node");
    }
    if depth < 0 || depth > 8 {
      return Err("depth must be between 0 and 8");
    }
    if direction != "in" && direction != "out" && direction != "both" {
      return Err("direction must be in, out, or both");
    }
    if limit < 1 || limit > 1000 {
      return Err("limit must be between 1 and 1000");
    }
    var selected, order, frontier := Search(s, root, depth, direction, limit, kinds);
    var nodes := LookUp(s, order);
    var edges := SelectEdges(s, selected, kinds, order);
    var frontierIds := SortIds(frontier);
    ListedSet(frontierIds, frontier);
    hide NearestFirst, Frontier, WholeBall, StepsOf, EdgesBetween, Valid, Lists, Ascending, NodeIds;
    return Ok(Neighborhood(nodes, edges, frontierIds != [], frontierIds));
  }
}
