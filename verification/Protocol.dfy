/** What one router does with its record and database, and the packets it sends, as functions of its state. */
module Protocol {
  import opened Network
  import opened Database

  datatype Body = RouterLsa(lsa: Node) | NetworkLsa(graph: seq<Node>) | NetworkRequest

  /** A datagram: `to` is the id of the router that owns the destination address, `source` the sender's address on that link. */
  datatype Packet = Packet(to: int, source: Ipv4, body: Body)

  /** The part of a daemon's state that the protocol is about: its own record and its database. */
  datatype Router = Router(me: Node, graph: seq<Node>)

  /** One copy over every link but those to the given address. */
  function Copies(links: seq<Link>, body: Body, except: Ipv4): (r: seq<Packet>)
    ensures |r| <= |links|
  {
    if links == [] then []
    else
      var rest := Copies(links[..|links| - 1], body, except);
      var l := links[|links| - 1];
      if l.neighbourIp == except then rest else rest + [Packet(l.neighbourId, l.sourceIp, body)]
  }

  lemma {:induction false} CopyPerLink(links: seq<Link>, body: Body, except: Ipv4, k: int) returns (i: int)
    requires 0 <= k < |links| && links[k].neighbourIp != except
    ensures 0 <= i < |Copies(links, body, except)|
    ensures Copies(links, body, except)[i] == Packet(links[k].neighbourId, links[k].sourceIp, body)
  {
    var init := links[..|links| - 1];
    if k == |links| - 1 {
      i := |Copies(init, body, except)|;
    } else {
      i := CopyPerLink(init, body, except, k);
    }
  }

  lemma {:induction false} LinkPerCopy(links: seq<Link>, body: Body, except: Ipv4, i: int) returns (k: int)
    requires 0 <= i < |Copies(links, body, except)|
    ensures 0 <= k < |links| && links[k].neighbourIp != except
    ensures Copies(links, body, except)[i] == Packet(links[k].neighbourId, links[k].sourceIp, body)
  {
    var init, l := links[..|links| - 1], links[|links| - 1];
    if l.neighbourIp != except && i == |Copies(init, body, except)| {
      k := |links| - 1;
    } else {
      k := LinkPerCopy(init, body, except, i);
    }
  }

  /** The answer to a request: the whole database, over the first link from which the request can have come. */
  function Reply(links: seq<Link>, graph: seq<Node>, source: Ipv4): (r: seq<Packet>)
    ensures |r| <= 1
  {
    if links == [] then []
    else if links[0].neighbourIp == source then [Packet(links[0].neighbourId, links[0].sourceIp, NetworkLsa(graph))]
    else Reply(links[1..], graph, source)
  }

  /** The router's state after it has handled a packet. */
  function Receive(r: Router, p: Packet): Router
    requires Deliverable(r, p)
  {
    match p.body
    case RouterLsa(lsa) => r.(graph := MergeNode(r.graph, lsa))
    case NetworkLsa(graph) => r.(graph := MergeGraph(r.graph, graph))
    case NetworkRequest => r
  }

  /** What it sends in turn: only an accepted router LSA is passed on, and not to where it came from. */
  function Response(r: Router, p: Packet): seq<Packet>
    requires Deliverable(r, p)
  {
    match p.body
    case RouterLsa(lsa) =>
      if Accepts(r.graph[lsa.id - 1], lsa) then Copies(r.me.links, RouterLsa(lsa), p.source) else []
    case NetworkLsa(_) => []
    case NetworkRequest => Reply(r.me.links, r.graph, p.source)
  }

  /**
   What a router sends when a router LSA arrives: if that is news, one copy over every link but the one to the address it
   came from, and nothing otherwise.
   */
  lemma ForwardedCopies(r: Router, p: Packet, c: Packet)
    requires p.body.RouterLsa? && Deliverable(r, p)
    ensures c in Response(r, p) <==>
            && Accepts(r.graph[p.body.lsa.id - 1], p.body.lsa)
            && exists k :: 0 <= k < |r.me.links| && r.me.links[k].neighbourIp != p.source &&
                           c == Packet(r.me.links[k].neighbourId, r.me.links[k].sourceIp, RouterLsa(p.body.lsa))
  {
    var links := r.me.links;
    if c in Response(r, p) {
      var i :| 0 <= i < |Response(r, p)| && Response(r, p)[i] == c;
      var k := LinkPerCopy(links, p.body, p.source, i);
    } else if k :| 0 <= k < |links| && links[k].neighbourIp != p.source &&
                   c == Packet(links[k].neighbourId, links[k].sourceIp, RouterLsa(p.body.lsa)) {
      if Accepts(r.graph[p.body.lsa.id - 1], p.body.lsa) {
        var i := CopyPerLink(links, p.body, p.source, k);
      }
    }
  }

  /** What a router knows after a packet: its entries merged with those that the packet brings, and no other record of its own. */
  lemma ReceivedEntries(r: Router, p: Packet, i: int)
    requires Deliverable(r, p) && 0 <= i < |r.graph|
    ensures Receive(r, p).me == r.me && |Receive(r, p).graph| == |r.graph|
    ensures p.body.RouterLsa? && p.body.lsa.id == i + 1 ==> Receive(r, p).graph[i] == MergeEntry(r.graph[i], p.body.lsa)
    ensures p.body.NetworkLsa? ==> Receive(r, p).graph[i] == MergeEntry(r.graph[i], p.body.graph[i])
    ensures p.body.NetworkRequest? ==> Receive(r, p) == r
  {
  }

  /** There is one copy per link, and no more. */
  lemma {:induction false} CopiesAreCounted(links: seq<Link>, body: Body, except: Ipv4)
    ensures |Copies(links, body, except)| == |(set k | 0 <= k < |links| && links[k].neighbourIp != except)|
  {
    if links != [] {
      var n := |links| - 1;
      var init := links[..n];
      CopiesAreCounted(init, body, except);
      var before := set k | 0 <= k < n && init[k].neighbourIp != except;
      assert forall k :: 0 <= k < n ==> init[k] == links[k];
      var last := if links[n].neighbourIp != except then {n} else {};
      assert (set k | 0 <= k < |links| && links[k].neighbourIp != except) == before + last;
    }
  }

  /** A neighbour's request is answered with exactly one packet, to that neighbour, that holds the whole database. */
  lemma NeighbourGetsGraph(r: Router, p: Packet, n: nat, k: int)
    requires p.body == NetworkRequest && GoodLinks(r.me.links, n)
    requires 0 <= k < |r.me.links| && r.me.links[k].neighbourIp == p.source
    ensures Response(r, p) == [Packet(r.me.links[k].neighbourId, r.me.links[k].sourceIp, NetworkLsa(r.graph))]
  {
    ReplyOverLink(r.me.links, n, r.graph, p.source, k);
  }

  lemma {:induction false} ReplyOverLink(links: seq<Link>, n: nat, graph: seq<Node>, source: Ipv4, k: int)
    requires GoodLinks(links, n) && 0 <= k < |links| && links[k].neighbourIp == source
    ensures Reply(links, graph, source) == [Packet(links[k].neighbourId, links[k].sourceIp, NetworkLsa(graph))]
  {
    if k > 0 { ReplyOverLink(links[1..], n, graph, source, k - 1); }
  }

  /** A stranger's request is not answered. */
  lemma {:induction false} StrangerGetsNothing(links: seq<Link>, graph: seq<Node>, source: Ipv4)
    requires forall k :: 0 <= k < |links| ==> links[k].neighbourIp != source
    ensures Reply(links, graph, source) == []
  {
    if links != [] { StrangerGetsNothing(links[1..], graph, source); }
  }

  predicate Deliverable(r: Router, p: Packet) {
    match p.body
    case RouterLsa(lsa) => InRange(lsa, |r.graph|)
    case NetworkLsa(graph) => |graph| == |r.graph|
    case NetworkRequest => true
  }

  /** What `local_node_update_metrics` and link events may change of a record: statuses, metrics and the time. */
  ghost predicate SameWiring(a: Node, b: Node) {
    && a.id == b.id && |a.links| == |b.links|
    && forall i :: 0 <= i < |a.links| ==>
         && a.links[i].neighbourId == b.links[i].neighbourId
         && a.links[i].neighbourIp == b.links[i].neighbourIp
         && a.links[i].sourceIp == b.links[i].sourceIp
  }

  /** The range of link metrics, in both builds. */
  ghost predicate MetricsInRange(links: seq<Link>) {
    forall i :: 0 <= i < |links| ==> 0.0 < links[i].metric <= 10000.0
  }

  /** `me` may follow `me0` as a router's own record: same wiring, no earlier time, metrics in range. */
  ghost predicate NextOwn(me: Node, me0: Node) {
    SameWiring(me, me0) && me.state == Seen && me.timestamp >= me0.timestamp && MetricsInRange(me.links)
  }
}
