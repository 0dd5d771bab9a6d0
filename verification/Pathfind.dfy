/** Dijkstra's algorithm over node objects that the heap and the node table share, and the route table it yields. */
module Pathfind {
  import opened Network
  import opened MinHeap
  import opened ShortestPaths
  import opened Routes

  /** The node table is a fixed block of structs: distinct nodes at fixed places that mirror the graph. */
  ghost predicate Mirrors(nodes: seq<DijkstraNode>, g: seq<Node>)
    reads nodes
  {
    && |nodes| == |g|
    && (forall i, j :: 0 <= i < j < |nodes| ==> nodes[i] != nodes[j])
    && forall i :: 0 <= i < |g| ==> MirrorsAt(nodes[i], g[i])
  }

  ghost predicate MirrorsAt(n: DijkstraNode, node: Node)
    reads n
  {
    n.id == node.id && n.state == node.state && n.links == if node.state == Seen then node.links else []
  }

  /** The labels stored in the nodes are those of t. */
  ghost predicate Carries(nodes: seq<DijkstraNode>, t: Labels)
    reads nodes
  {
    && |nodes| == |t.dist| == |t.prev|
    && forall i :: 0 <= i < |nodes| ==> nodes[i].tentDist == t.dist[i] && nodes[i].prevId == t.prev[i]
  }

  method DijkstraInit(graph: array<Node>, srcId: int) returns (nodes: seq<DijkstraNode>)
    ensures Mirrors(nodes, graph[..]) && Carries(nodes, InitialLabels(graph[..], srcId))
    ensures fresh(nodes)
  {
    nodes := [];
    for i := 0 to graph.Length
      invariant |nodes| == i
      invariant forall j, k :: 0 <= j < k < i ==> nodes[j] != nodes[k]
      invariant fresh(nodes)
      invariant forall j :: 0 <= j < i ==> MirrorsAt(nodes[j], graph[j])
      invariant forall j :: 0 <= j < i ==> nodes[j].prevId == -1
      invariant forall j :: 0 <= j < i ==> nodes[j].tentDist == if j + 1 == srcId && graph[j].state == Seen then 0.0 else INFINITE_DISTANCE
    {
      var dist, links := INFINITE_DISTANCE, [];
      if graph[i].state == Seen {
        if i + 1 == srcId {
          dist := 0.0;
        }
        links := graph[i].links;
      }
      var n := new DijkstraNode(graph[i].id, graph[i].state, dist, links);
      nodes := nodes + [n];
    }
  }

  /** The nodes that wait in the heap: known by their own record and not popped yet. */
  ghost predicate Queued(h: MinHeap, nodes: seq<DijkstraNode>, g: seq<Node>, t: Labels)
    reads h, h.nodePtrs
  {
    && h.Valid() && |nodes| == |t.rank| == |g|
    && (forall n :: n in h.Members() ==> n in nodes)
    && forall i :: 0 <= i < |nodes| ==> (nodes[i] in h.Members() <==> g[i].state == Seen && t.rank[i] == |g|)
  }

  method HeapInit(nodes: seq<DijkstraNode>, ghost g: seq<Node>, ghost t: Labels) returns (h: MinHeap)
    requires Mirrors(nodes, g) && |t.rank| == |g| && forall i :: 0 <= i < |g| ==> t.rank[i] == |g|
    ensures fresh(h) && fresh(h.nodePtrs) && Queued(h, nodes, g, t) && Ordered(h.Keys(), 0)
  {
    h := new MinHeap(|nodes|);
    for i := 0 to |nodes|
      invariant fresh(h) && fresh(h.nodePtrs) && h.nodePtrs.Length == |nodes|
      invariant h.Valid() && Ordered(h.Keys(), 0) && h.size <= i
      invariant forall n :: n in h.Members() ==> n in nodes[..i]
      invariant forall j :: 0 <= j < i ==> (nodes[j] in h.Members() <==> g[j].state == Seen)
    {
      assert MirrorsAt(nodes[i], g[i]);
      if nodes[i].state == Seen {
        h.Insert(nodes[i]);
      }
    }
  }

  /** The state of a search in progress: t is what the node objects hold, and the heap is in order for those keys. */
  ghost predicate InProgress(h: MinHeap, nodes: seq<DijkstraNode>, g: seq<Node>, t: Labels)
    reads h, h.nodePtrs, h.nodePtrs[..], nodes
  {
    && Mirrors(nodes, g) && Carries(nodes, t)
    && Queued(h, nodes, g, t) && Ordered(h.Keys(), 0)
  }

  /** Changes a key through the node table, behind the heap's back, and has the heap rebuilt. */
  method Improve(h: MinHeap, nodes: seq<DijkstraNode>, curr: DijkstraNode, neighbour: DijkstraNode, alt: real,
                 ghost l: int, ghost v: int, ghost g: seq<Node>, ghost t: Labels)
    requires Mirrors(nodes, g) && Carries(nodes, t) && Queued(h, nodes, g, t)
    requires 0 <= v < |nodes| && neighbour == nodes[v] && |t.via| == |nodes|
    modifies neighbour`prevId, neighbour`tentDist, h.nodePtrs
    ensures InProgress(h, nodes, g, RelaxLabels(t, old(curr.id) - 1, l, v, alt))
  {
    neighbour.prevId := curr.id;
    neighbour.tentDist := alt;
    h.BuildHeap();
  }

  /** The first n links of u offer no improvement. */
  ghost predicate RelaxedUpTo(g: seq<Node>, dt: bool, t: Labels, u: int, n: int)
    requires |t.dist| == |g|
  {
    forall l :: 0 <= l < n && Usable(g, dt, u, l) ==> RelaxedLink(g, t, u, l)
  }

  /** The search has popped u last and relaxed its first n links. */
  ghost predicate Relaxing(g: seq<Node>, dt: bool, src: int, t: Labels, u: int, n: int) {
    && Search(g, dt, src, t) && Relaxed(g, dt, t, t.popped - 1)
    && 0 <= u < |g| && t.rank[u] == t.popped - 1 && g[u].state == Seen
    && RelaxedUpTo(g, dt, t, u, n)
  }

  lemma RelaxStep(g: seq<Node>, dt: bool, src: int, t: Labels, u: int, i: int, v: int, alt: real)
    requires GoodGraph(g) && Relaxing(g, dt, src, t, u, i)
    requires Usable(g, dt, u, i) && v == Target(g, u, i) && 0 <= v < |g|
    requires alt == t.dist[u] + Cost(g, u, i) < t.dist[v]
    ensures Relaxing(g, dt, src, RelaxLabels(t, u, i, v, alt), u, i + 1)
  {
    UsableIsGood(g, dt, u, i);
    RelaxKeepsSearch(g, dt, src, t, u, i, v, alt);
  }

  lemma NoRelaxStep(g: seq<Node>, dt: bool, src: int, t: Labels, u: int, i: int)
    requires GoodGraph(g) && Relaxing(g, dt, src, t, u, i)
    requires Usable(g, dt, u, i) ==> t.dist[u] + Cost(g, u, i) >= t.dist[Target(g, u, i)]
    ensures Relaxing(g, dt, src, t, u, i + 1)
  {
    if Usable(g, dt, u, i) { UsableIsGood(g, dt, u, i); }
  }

  lemma AllRelaxed(g: seq<Node>, dt: bool, src: int, t: Labels, u: int)
    requires 0 <= u < |g| && Relaxing(g, dt, src, t, u, |g[u].links|)
    ensures Relaxed(g, dt, t, t.popped)
  {
    forall x, l | Usable(g, dt, x, l) && t.rank[x] < t.popped ensures RelaxedLink(g, t, x, l) {
    }
  }

  /** Offers link i of the node popped last to the neighbour it leads to. */
  method RelaxLink(h: MinHeap, nodes: seq<DijkstraNode>, curr: DijkstraNode, i: int, dt: bool,
                   ghost u: int, ghost g: seq<Node>, ghost src: int, ghost t0: Labels)
      returns (ghost t: Labels)
    requires GoodGraph(g) && InProgress(h, nodes, g, t0) && Relaxing(g, dt, src, t0, u, i)
    requires curr == nodes[u] && 0 <= i < |curr.links|
    modifies nodes, h.nodePtrs
    ensures InProgress(h, nodes, g, t) && Relaxing(g, dt, src, t, u, i + 1)
    ensures t.rank == t0.rank && t.popped == t0.popped
  {
    t := t0;
    assert MirrorsAt(curr, g[u]);
    if !dt && curr.links[i].status == Down {
      NoRelaxStep(g, dt, src, t, u, i);
      return;
    }
    UsableIsGood(g, dt, u, i);
    var v := curr.links[i].neighbourId - 1;
    var neighbour := nodes[v];
    var alt := curr.tentDist + curr.links[i].metric;
    if alt < neighbour.tentDist {
      RelaxStep(g, dt, src, t, u, i, v, alt);
      Improve(h, nodes, curr, neighbour, alt, i, v, g, t);
      t := RelaxLabels(t, u, i, v, alt);
    } else {
      NoRelaxStep(g, dt, src, t, u, i);
    }
  }

  /** Offers the links of the node popped last to its neighbours. */
  method RelaxLinks(h: MinHeap, nodes: seq<DijkstraNode>, curr: DijkstraNode, dt: bool,
                    ghost u: int, ghost g: seq<Node>, ghost src: int, ghost t0: Labels)
      returns (ghost t: Labels)
    requires GoodGraph(g) && InProgress(h, nodes, g, t0) && Relaxing(g, dt, src, t0, u, 0)
    requires curr == nodes[u]
    modifies nodes, h.nodePtrs
    ensures InProgress(h, nodes, g, t) && Search(g, dt, src, t) && Relaxed(g, dt, t, t.popped)
    ensures t.rank == t0.rank && t.popped == t0.popped
  {
    t := t0;
    assert MirrorsAt(curr, g[u]);
    for i := 0 to |curr.links|
      invariant curr.links == g[u].links
      invariant InProgress(h, nodes, g, t) && Relaxing(g, dt, src, t, u, i)
      invariant t.rank == t0.rank && t.popped == t0.popped
    {
      t := RelaxLink(h, nodes, curr, i, dt, u, g, src, t);
      assert MirrorsAt(curr, g[u]);
    }
    AllRelaxed(g, dt, src, t, u);
  }

  /** The node taken from the heap is one of least distance among those not popped yet. */
  method PopNext(h: MinHeap, nodes: seq<DijkstraNode>, ghost g: seq<Node>, ghost t: Labels)
      returns (curr: DijkstraNode, ghost u: int)
    requires InProgress(h, nodes, g, t) && t.popped < |g| && h.size > 0
    modifies h`size, h.nodePtrs
    ensures 0 <= u < |g| && curr == nodes[u] && NextToPop(g, t, u)
    ensures InProgress(h, nodes, g, PopLabels(t, u))
  {
    curr := h.Pop();
    u :| 0 <= u < |nodes| && nodes[u] == curr;
    forall v | 0 <= v < |g| && g[v].state == Seen && t.rank[v] == |g| ensures t.dist[u] <= t.dist[v] {
      assert nodes[v] in old(h.Members());
    }
  }

  lemma HeapHoldsUnpopped(h: MinHeap, nodes: seq<DijkstraNode>, g: seq<Node>, t: Labels)
    requires InProgress(h, nodes, g, t) && Shape(g, t)
    ensures h.size > 0 ==> t.popped < |g|
    ensures h.size == 0 ==> forall v :: 0 <= v < |g| && g[v].state == Seen ==> t.rank[v] < t.popped
  {
    if h.size > 0 {
      var n := h.nodePtrs[0];
      assert n in h.Members();
      var u :| 0 <= u < |nodes| && nodes[u] == n;
      assert u !in PoppedSet(t);
      RangeCard(|g|, PoppedSet(t));
    } else {
      assert h.Members() == {};
    }
  }

  /** One round of the main loop. */
  method Settle(h: MinHeap, nodes: seq<DijkstraNode>, dt: bool, ghost g: seq<Node>, ghost src: int, ghost t0: Labels)
      returns (ghost t: Labels)
    requires GoodGraph(g) && InProgress(h, nodes, g, t0) && Search(g, dt, src, t0) && Relaxed(g, dt, t0, t0.popped)
    requires h.size > 0
    modifies nodes, h`size, h.nodePtrs
    ensures InProgress(h, nodes, g, t) && Search(g, dt, src, t) && Relaxed(g, dt, t, t.popped)
    ensures t0.popped < t.popped <= |g|
  {
    HeapHoldsUnpopped(h, nodes, g, t0);
    var curr, u := PopNext(h, nodes, g, t0);
    assert MirrorsAt(nodes[u], g[u]);
    if curr.state == Opaque {
      assert false;
    }
    PopKeepsSearch(g, dt, src, t0, u);
    t := RelaxLinks(h, nodes, curr, dt, u, g, src, PopLabels(t0, u));
  }

  /** The search proper: every round of the loop settles one more node. */
  method SettleAll(nodes: seq<DijkstraNode>, dt: bool, ghost g: seq<Node>, ghost src: int) returns (ghost t: Labels)
    requires GoodGraph(g) && Mirrors(nodes, g) && Carries(nodes, InitialLabels(g, src))
    modifies nodes
    ensures Mirrors(nodes, g) && Carries(nodes, t) && ShortestTree(g, dt, src, t)
  {
    t := InitialLabels(g, src);
    SearchStarts(g, dt, src);
    var h := HeapInit(nodes, g, t);
    while h.size > 0
      invariant fresh(h) && fresh(h.nodePtrs)
      invariant InProgress(h, nodes, g, t) && Search(g, dt, src, t) && Relaxed(g, dt, t, t.popped)
      decreases |g| - t.popped
    {
      t := Settle(h, nodes, dt, g, src, t);
    }
    HeapHoldsUnpopped(h, nodes, g, t);
  }

  /** On return the node objects carry the least distances and the tree they come from. */
  method Dijkstra(graph: array<Node>, srcId: int, dt: bool) returns (nodes: seq<DijkstraNode>, ghost t: Labels)
    requires GoodGraph(graph[..])
    ensures fresh(nodes) && Mirrors(nodes, graph[..]) && Carries(nodes, t)
    ensures ShortestTree(graph[..], dt, srcId, t)
    ensures forall v :: 0 <= v < graph.Length ==> IsDistance(graph[..], dt, srcId, v, nodes[v].tentDist)
  {
    nodes := DijkstraInit(graph, srcId);
    t := SettleAll(nodes, dt, graph[..], srcId);
    AllLabelsAreDistances(graph[..], dt, srcId, t);
  }

  lemma AllLabelsAreDistances(g: seq<Node>, dt: bool, src: int, t: Labels)
    requires ShortestTree(g, dt, src, t)
    ensures forall v :: 0 <= v < |g| ==> IsDistance(g, dt, src, v, t.dist[v])
  {
    forall v | 0 <= v < |g| ensures IsDistance(g, dt, src, v, t.dist[v]) {
      LabelsAreDistances(g, dt, src, t, v);
    }
  }

  // ---------- Reading the table off the labels ----------

  /** Node object n carries record `node` and the predecessor found for it. */
  ghost predicate FinishedAt(n: DijkstraNode, node: Node, prev: int)
    reads n
  {
    MirrorsAt(n, node) && n.prevId == prev
  }

  /** The nodes are what a finished search over g left. */
  ghost predicate Finished(nodes: seq<DijkstraNode>, g: seq<Node>, dt: bool, src: int, t: Labels)
    reads nodes
  {
    && GoodGraph(g) && Forest(g, dt, src, t) && |nodes| == |g|
    && forall i {:trigger FinishedAt(nodes[i], g[i], t.prev[i])} :: 0 <= i < |g| ==>
         FinishedAt(nodes[i], g[i], t.prev[i])
  }

  /** No other link of the predecessor leads to v than the one its label came over. */
  lemma OnlyLink(nodes: seq<DijkstraNode>, g: seq<Node>, dt: bool, src: int, t: Labels, v: int)
    requires Finished(nodes, g, dt, src, t) && 0 <= v < |g| && t.prev[v] != -1
    ensures var u := t.prev[v] - 1;
            && 0 <= u < |g| && t.rank[u] < t.rank[v] && nodes[u].links == g[u].links && nodes[u].id == u + 1
            && 0 <= t.via[v] < |g[u].links| && LinkInto(g, dt, src, t, v) == g[u].links[t.via[v]]
            && forall i :: 0 <= i < |g[u].links| ==> (g[u].links[i].neighbourId == v + 1 <==> i == t.via[v])
  {
    assert Labelled(g, dt, src, t, v);
    var u := t.prev[v] - 1;
    assert FinishedAt(nodes[u], g[u], t.prev[u]);
    assert GoodNode(g[u], |g|);
  }

  /** One step of the trace: the metric and status recorded for the link from `this` to `next`. */
  method TraceLink(graph: array<Node>, nodes: seq<DijkstraNode>, this_: DijkstraNode, next: DijkstraNode, metric: int,
                   ghost dt: bool, ghost src: int, ghost t: Labels, ghost v: int)
      returns (metric': int, state: LinkState)
    requires Finished(nodes, graph[..], dt, src, t) && 0 <= v < graph.Length && t.prev[v] != -1
    requires next.id == v + 1 && 1 <= t.prev[v] <= |nodes| && this_ == nodes[t.prev[v] - 1]
    ensures metric' == SafeAdd(metric, LinkInto(graph[..], dt, src, t, v).metric)
    ensures state == LinkInto(graph[..], dt, src, t, v).status
  {
    OnlyLink(nodes, graph[..], dt, src, t, v);
    for i := 0 to |this_.links|
      invariant t.via[v] >= i
    {
      if next.id == this_.links[i].neighbourId {
        return SafeAdd(metric, graph[this_.id - 1].links[i].metric), this_.links[i].status;
      }
    }
    assert false;
    return metric, Down;
  }

  /** The trace from d has come back to v; n is the node after v, and metric and state are those gathered so far. */
  ghost predicate Traced(g: seq<Node>, dt: bool, src: int, t: Labels, d: int, v: int, n: int, metric: int,
            state: LinkState)
    requires Forest(g, dt, src, t) && 0 <= d < |g|
  {
    && 0 <= v < |g| && (v == d || t.rank[v] < t.rank[d])
    && TraceMetric(g, dt, src, t, v, metric) == HopMetric(g, dt, src, t, d)
    && (v != d ==>
          && 0 <= n < |g| && t.prev[d] != -1 && t.prev[n] == v + 1
          && state == LinkInto(g, dt, src, t, n).status
          && FirstHop(g, dt, src, t, d) == if t.prev[v] == -1 then n else FirstHop(g, dt, src, t, v))
  }

  lemma TraceStep(g: seq<Node>, dt: bool, src: int, t: Labels, d: int, v: int, n: int, metric: int, state: LinkState)
    requires Forest(g, dt, src, t) && 0 <= d < |g| && Traced(g, dt, src, t, d, v, n, metric, state)
    requires t.prev[v] != -1
    ensures var e := LinkInto(g, dt, src, t, v);
            Traced(g, dt, src, t, d, t.prev[v] - 1, v, SafeAdd(metric, e.metric), e.status)
    ensures 1 <= t.prev[v] <= |g| && t.rank[t.prev[v] - 1] < t.rank[v]
  {
    assert Labelled(g, dt, src, t, v);
    assert Labelled(g, dt, src, t, t.prev[v] - 1);
  }

  lemma TraceEnd(g: seq<Node>, dt: bool, src: int, t: Labels, d: int, v: int, n: int, metric: int, state: LinkState)
    requires Forest(g, dt, src, t) && 0 <= d < |g| && Traced(g, dt, src, t, d, v, n, metric, state)
    requires t.prev[v] == -1
    ensures v == d <==> t.prev[d] == -1
    ensures v != d ==>
              && n == FirstHop(g, dt, src, t, d) && metric == HopMetric(g, dt, src, t, d)
              && state == LinkInto(g, dt, src, t, n).status
  {
  }

  lemma TracedNode(nodes: seq<DijkstraNode>, g: seq<Node>, dt: bool, src: int, t: Labels, v: int)
    requires Finished(nodes, g, dt, src, t) && 0 <= v < |g|
    ensures v < |nodes| == |g| && nodes[v].id == v + 1 && nodes[v].prevId == t.prev[v]
  {
    assert FinishedAt(nodes[v], g[v], t.prev[v]);
  }

  /** Walks the predecessors back from the destination to the source. */
  method GetNextHop(graph: array<Node>, nodes: seq<DijkstraNode>, dstId: int, ghost dt: bool, ghost src: int,
                    ghost t: Labels)
      returns (nextHop: int, metric: int, nextHopState: LinkState)
    requires Finished(nodes, graph[..], dt, src, t) && 1 <= dstId <= |nodes|
    ensures t.prev[dstId - 1] == -1 ==> nextHop == -1
    ensures t.prev[dstId - 1] != -1 ==>
              var h := FirstHop(graph[..], dt, src, t, dstId - 1);
              && nextHop == h + 1 && metric == HopMetric(graph[..], dt, src, t, dstId - 1)
              && nextHopState == LinkInto(graph[..], dt, src, t, h).status
  {
    ghost var d, v, n := dstId - 1, dstId - 1, dstId - 1;
    var this_ := nodes[dstId - 1];
    var next := this_;
    nextHopState := Down;
    metric := 1;
    while this_.prevId != -1
      invariant Traced(graph[..], dt, src, t, d, v, n, metric, nextHopState)
      invariant this_ == nodes[v] && (v != d ==> next == nodes[n])
      decreases t.rank[v]
    {
      TracedNode(nodes, graph[..], dt, src, t, v);
      TraceStep(graph[..], dt, src, t, d, v, n, metric, nextHopState);
      next := this_;
      this_ := nodes[this_.prevId - 1];
      v, n := t.prev[v] - 1, v;
      metric, nextHopState := TraceLink(graph, nodes, this_, next, metric, dt, src, t, n);
    }
    TracedNode(nodes, graph[..], dt, src, t, v);
    TraceEnd(graph[..], dt, src, t, d, v, n, metric, nextHopState);
    if this_.id == dstId {
      return -1, metric, nextHopState;
    } else {
      TracedNode(nodes, graph[..], dt, src, t, n);
      return next.id, metric, nextHopState;
    }
  }

  /** The address of the destination on the last link; the abort behind the loop is never reached. */
  method GetDstIp(graph: array<Node>, nodes: seq<DijkstraNode>, dstId: int, ghost dt: bool, ghost src: int,
            ghost t: Labels)
      returns (ip: Ipv4)
    requires Finished(nodes, graph[..], dt, src, t) && 1 <= dstId <= |nodes| && t.prev[dstId - 1] != -1
    ensures ip == LinkInto(graph[..], dt, src, t, dstId - 1).neighbourIp
  {
    OnlyLink(nodes, graph[..], dt, src, t, dstId - 1);
    var dest := nodes[dstId - 1];
    assert FinishedAt(dest, graph[..][dstId - 1], t.prev[dstId - 1]);
    var prev := nodes[dest.prevId - 1];
    for i := 0 to |prev.links|
      invariant t.via[dstId - 1] >= i
    {
      if dest.id == prev.links[i].neighbourId {
        return graph[prev.id - 1].links[i].neighbourIp;
      }
    }
    assert false;
    return NO_IP;
  }

  method GetEntry(graph: array<Node>, nodes: seq<DijkstraNode>, i: nat, ghost dt: bool, ghost src: int, ghost t: Labels)
      returns (entry: HopDest)
    requires Finished(nodes, graph[..], dt, src, t) && i < graph.Length
    ensures entry == TableEntry(graph[..], dt, src, t, i)
  {
    assert FinishedAt(nodes[i], graph[..][i], t.prev[i]);
    if nodes[i].state != Unseen && nodes[i].prevId != -1 {
      var nextHop, metric, nextHopState := GetNextHop(graph, nodes, i + 1, dt, src, t);
      var dstIp := GetDstIp(graph, nodes, i + 1, dt, src, t);
      entry := HopDest(nextHop, dstIp, metric, nextHopState);
    } else {
      entry := NO_ROUTE;
    }
  }

  method GetNextHops(graph: array<Node>, nodes: seq<DijkstraNode>, nextHops: array<HopDest>,
                     ghost dt: bool, ghost src: int, ghost t: Labels)
    requires Finished(nodes, graph[..], dt, src, t) && nextHops.Length == graph.Length
    modifies nextHops
    ensures forall v {:trigger TableEntry(graph[..], dt, src, t, v)} :: 0 <= v < graph.Length ==>
              nextHops[v] == TableEntry(graph[..], dt, src, t, v)
  {
    for i := 0 to graph.Length
      invariant Finished(nodes, graph[..], dt, src, t)
      invariant forall v {:trigger TableEntry(graph[..], dt, src, t, v)} :: 0 <= v < i ==>
                  nextHops[v] == TableEntry(graph[..], dt, src, t, v)
    {
      nextHops[i] := GetEntry(graph, nodes, i, dt, src, t);
    }
  }

  /** Recomputes the route table of router srcId from its graph. */
  method Pathfind(graph: array<Node>, srcId: int, nextHops: array<HopDest>, dt: bool) returns (ghost t: Labels)
    requires GoodGraph(graph[..]) && nextHops.Length == graph.Length
    modifies nextHops
    ensures IsTable(graph[..], dt, srcId, t, nextHops[..])
  {
    var nodes;
    nodes, t := Dijkstra(graph, srcId, dt);
    GetNextHops(graph, nodes, nextHops, dt, srcId, t);
  }
}
