/** The values routers store and exchange: link-state records and route table entries. */
module Network {

  /** Size of every graph, heap and route table (include/algorithm/def.h:29). */
  const MAX_NODE_NUM: nat := 12
  /** Most links a router has (include/algorithm/def.h:31). */
  const MAX_NODE_FAN: nat := 6
  /** Finite stand-in for an infinite distance (src/algorithm/pathfind.c:20). */
  const INFINITE_DISTANCE: real := 65565.0 * 65565.0

  type Octet = x: int | 0 <= x < 256
  datatype Ipv4 = Ipv4(a: Octet, b: Octet, c: Octet, d: Octet)
  const NO_IP := Ipv4(0, 0, 0, 0)

  datatype LinkState = Down | Up
  datatype NodeState = Unseen | Opaque | Seen

  /** One column of the parallel arrays of `struct node`; `n_neighbours` is the number of columns in use. */
  datatype Link = Link(neighbourId: int, neighbourIp: Ipv4, sourceIp: Ipv4, status: LinkState, metric: real)
  datatype Node = Node(id: int, state: NodeState, links: seq<Link>, timestamp: nat)

  /** `struct hop_dest`: a next hop of -1 means there is no route. */
  datatype HopDest = HopDest(nextHop: int, destIp: Ipv4, metric: int, nextHopState: LinkState)
  const NO_ROUTE := HopDest(-1, NO_IP, 0, Down)

  predicate SameLink(a: Link, b: Link) {
    a.neighbourId == b.neighbourId && a.status == b.status && a.metric == b.metric
  }

  /** The content equality that decides whether a newer record is worth storing: addresses and timestamps are ignored. */
  predicate ContentEq(a: Node, b: Node) {
    && a.id == b.id && a.state == b.state && |a.links| == |b.links|
    && forall i :: 0 <= i < |a.links| ==> SameLink(a.links[i], b.links[i])
  }

  method NodesEq(a: Node, b: Node) returns (eq: bool)
    ensures eq <==> ContentEq(a, b)
  {
    eq := a.id == b.id && a.state == b.state && |a.links| == |b.links|;
    if !eq { return false; }
    for i := 0 to |a.links|
      invariant eq && forall k :: 0 <= k < i ==> SameLink(a.links[k], b.links[k])
    {
      eq := SameLink(a.links[i], b.links[i]);
      if !eq { return false; }
    }
  }

  // ---------- Hypotheses on the topology ----------

  /** Neighbour ids name graph entries, and no two links lead to the same router or address. */
  predicate GoodLinks(links: seq<Link>, n: nat) {
    && (forall i :: 0 <= i < |links| ==> 1 <= links[i].neighbourId <= n)
    && (forall i, j :: 0 <= i < j < |links| ==> links[i].neighbourId != links[j].neighbourId)
    && (forall i, j :: 0 <= i < j < |links| ==> links[i].neighbourIp != links[j].neighbourIp)
  }

  predicate NonNegativeMetrics(links: seq<Link>) {
    forall i :: 0 <= i < |links| ==> 0.0 <= links[i].metric
  }

  /** Only records that are Seen carry link data; the other states leave it unset. */
  predicate GoodNode(node: Node, n: nat) {
    node.state == Seen ==> GoodLinks(node.links, n) && NonNegativeMetrics(node.links)
  }

  predicate GoodGraph(g: seq<Node>) {
    forall i :: 0 <= i < |g| ==> g[i].id == i + 1 && GoodNode(g[i], |g|)
  }
}
