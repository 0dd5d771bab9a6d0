/** A router's daemon: its own links, its database and its route table, driven by one event at a time. */
module Daemon {
  import opened Network
  import opened ShortestPaths
  import opened Routes
  import Pathfind
  import opened LinkHistory
  import opened Database
  import opened Protocol
  import opened RouteControl

  /** The first link from the given address that is down comes up. */
  ghost function LinkToRaise(links: seq<Link>, source: Ipv4): (k: nat)
    ensures k <= |links|
    ensures k < |links| ==> links[k].neighbourIp == source && links[k].status == Down
    ensures forall i :: 0 <= i < k ==> !(links[i].neighbourIp == source && links[i].status == Down)
  {
    if links == [] then 0
    else if links[0].neighbourIp == source && links[0].status == Down then 0
    else 1 + LinkToRaise(links[1..], source)
  }

  method FindLinkToRaise(links: seq<Link>, source: Ipv4) returns (k: nat)
    ensures k == LinkToRaise(links, source)
  {
    k := 0;
    while k < |links|
      invariant k <= |links| && LinkToRaise(links, source) == k + LinkToRaise(links[k..], source)
    {
      assert links[k..][1..] == links[k + 1..];
      if links[k].neighbourIp == source && links[k].status == Down {
        return;
      }
      k := k + 1;
    }
  }

  ghost predicate DownFrom(links: seq<Link>, source: Ipv4, i: int)
    requires 0 <= i < |links|
  {
    links[i].neighbourIp == source && links[i].status == Down
  }

  /** Link i is the first from this address that is down. */
  ghost predicate FirstDownFrom(links: seq<Link>, source: Ipv4, i: int) {
    && 0 <= i < |links| && DownFrom(links, source, i)
    && forall j :: 0 <= j < i ==> !DownFrom(links, source, j)
  }

  /** Of node0 only link i has changed, in its status alone. */
  ghost predicate OnlyLinkChanged(node: Node, node0: Node, i: int, status: LinkState) {
    && node.id == node0.id && node.state == node0.state && node.timestamp == node0.timestamp
    && |node.links| == |node0.links| && 0 <= i < |node.links| && node.links[i] == node0.links[i].(status := status)
    && forall j :: 0 <= j < |node.links| && j != i ==> node.links[j] == node0.links[j]
  }

  ghost function WithStatus(links: seq<Link>, k: nat, status: LinkState): seq<Link> {
    if k < |links| then links[k := links[k].(status := status)] else links
  }

  method NewHistories(n: nat, now: nat) returns (hs: seq<LSTimeSeries>, ghost repr: set<object>)
    ensures |hs| == n && fresh(repr)
    ensures forall i :: 0 <= i < n ==> hs[i] in repr && hs[i].timestamps in repr
    ensures forall i, j :: 0 <= i < j < n ==> hs[i] != hs[j] && hs[i].timestamps != hs[j].timestamps
    ensures forall i :: 0 <= i < n ==> Tracks(hs[i], Down) && hs[i].log == [now]
  {
    hs, repr := [], {};
    for i := 0 to n
      invariant |hs| == i && fresh(repr)
      invariant forall k :: 0 <= k < i ==> hs[k] in repr && hs[k].timestamps in repr
      invariant forall j, k :: 0 <= j < k < i ==> hs[j] != hs[k] && hs[j].timestamps != hs[k].timestamps
      invariant forall k :: 0 <= k < i ==> Tracks(hs[k], Down) && hs[k].log == [now]
    {
      var h := new LSTimeSeries(Down, now);
      hs := hs + [h];
      repr := repr + {h, h.timestamps};
    }
  }

  class LocalNode {
    var node: Node
    ghost const Repr: set<object>
    // one history per link in the DTLSR build, none in LSR
    const histories: seq<LSTimeSeries>
    const dt: bool

    /** `local_node_init`: links start down. */
    constructor (id: int, wiring: seq<Link>, dt: bool, now: nat)
      requires |wiring| <= MAX_NODE_FAN
      ensures Valid() && InPast(now) && this.dt == dt && fresh(Repr)
      ensures node.id == id && |node.links| == |wiring|
      ensures forall i :: 0 <= i < |wiring| ==> node.links[i] == wiring[i].(status := Down)
      ensures forall i :: 0 <= i < |histories| ==> histories[i].log == [now] && histories[i].currLinkState == Down
    {
      this.dt := dt;
      node := Node(id, Seen, seq(|wiring|, i requires 0 <= i < |wiring| => wiring[i].(status := Down)), 0);
      var hs;
      ghost var repr;
      hs, repr := NewHistories(if dt then |wiring| else 0, now);
      histories := hs;
      Repr := {this} + repr;
    }

    /** The histories are objects of their own. */
    ghost predicate Separate() {
      && this in Repr
      && (forall i, j :: 0 <= i < j < |histories| ==>
            histories[i] != histories[j] && histories[i].timestamps != histories[j].timestamps)
      && (forall i :: 0 <= i < |histories| ==> histories[i] in Repr && histories[i].timestamps in Repr)
    }

    ghost predicate Shaped()
      reads this
    {
      node.state == Seen && Separate() && |histories| == (if dt then |node.links| else 0)
    }

    ghost predicate Valid()
      reads this, Repr
    {
      && Shaped()
      && (forall i :: 0 <= i < |histories| ==> Tracks(histories[i], node.links[i].status))
    }

    /** The clock shows no time before the last toggle of any link. */
    ghost predicate InPast(time: nat)
      reads histories
    {
      forall i :: 0 <= i < |histories| ==> Newest(histories[i]) <= time
    }

    /** Link k changes state, and in the DTLSR build its history records when. */
    method SetStatus(k: nat, status: LinkState, now: nat)
      requires Valid() && k < |node.links| && node.links[k].status != status && InPast(now)
      // a link only falls when its heartbeat timer, set after its last rise, has run out
      requires dt && status == Down ==> Newest(histories[k]) < now
      modifies Repr
      ensures Valid() && InPast(now)
      ensures node == old(node).(links := WithStatus(old(node.links), k, status))
      ensures forall i :: 0 <= i < |histories| ==>
                histories[i].log == if i == k then old(histories[i].log) + [now] else old(histories[i].log)
    {
      if dt {
        ToggleHistory(k, status, now);
      }
      StoreStatus(k, status);
    }

    method StoreStatus(k: nat, status: LinkState)
      requires k < |node.links| && Shaped()
      requires forall i :: 0 <= i < |histories| ==> Tracks(histories[i], if i == k then status else node.links[i].status)
      modifies this`node
      ensures Valid() && node == old(node).(links := WithStatus(old(node.links), k, status))
    {
      node := node.(links := node.links[k := node.links[k].(status := status)]);
    }

    method ToggleHistory(k: nat, status: LinkState, now: nat)
      requires Valid() && k < |histories| && InPast(now) && node.links[k].status != status
      requires status == Down ==> Newest(histories[k]) < now
      modifies histories[k], histories[k].timestamps
      ensures InPast(now) && Tracks(histories[k], status) && histories[k].log == old(histories[k].log) + [now]
      ensures forall i :: 0 <= i < |histories| && i != k ==> unchanged(histories[i]) && unchanged(histories[i].timestamps)
      ensures forall i :: 0 <= i < |histories| && i != k ==> Tracks(histories[i], node.links[i].status)
    {
      assert Tracks(histories[k], node.links[k].status);
      SortedIsBounded(histories[k].log);
      histories[k].ToggleState(now);
    }

    /** `register_heartbeat`: a heartbeat from a neighbour raises its link if that was down. `now` is the clock's reading. */
    method RegisterHeartbeat(source: Ipv4, now: nat) returns (updated: bool)
      requires Valid() && InPast(now)
      modifies Repr
      ensures Valid() && InPast(now)
      ensures updated <==> exists i :: 0 <= i < |old(node.links)| && DownFrom(old(node.links), source, i)
      ensures !updated ==> node == old(node)
      ensures updated ==> exists i :: FirstDownFrom(old(node.links), source, i) && OnlyLinkChanged(node, old(node), i, Up)
      ensures node == old(node).(links := WithStatus(old(node.links), LinkToRaise(old(node.links), source), Up))
    {
      var k := FindLinkToRaise(node.links, source);
      if k < |node.links| {
        assert FirstDownFrom(node.links, source, k);
        SetStatus(k, Up, now);
        return true;
      }
      return false;
    }

    /** `timeout_heartbeat` up to the change of the record: k is the link whose timer fired. */
    method TimeoutHeartbeat(k: nat, now: nat) returns (updated: bool)
      requires Valid() && InPast(now)
      requires dt && k < |node.links| && node.links[k].status == Up ==> Newest(histories[k]) < now
      modifies Repr
      ensures Valid() && InPast(now)
      ensures updated <==> k < |old(node.links)| && old(node.links)[k].status == Up
      ensures if updated then OnlyLinkChanged(node, old(node), k, Down) else node == old(node)
      ensures node == old(node).(links := WithStatus(old(node.links), k, Down))
    {
      if k < |node.links| && node.links[k].status == Up {
        SetStatus(k, Down, now);
        return true;
      }
      return false;
    }

    method MetricOf(E: nat -> Positive, i: nat, now: nat) returns (metric: real)
      requires Valid() && Growing(E) && InPast(now) && i < |node.links|
      ensures 0.0 < metric <= 10000.0
      ensures !dt || node.links[i].status == Up ==> metric == 1.0
      ensures dt ==> Gives(histories[i], E, now, metric)
    {
      metric := 1.0;
      if dt {
        assert Tracks(histories[i], node.links[i].status);
        if node.links[i].status == Down {
          FallIsAfterOldest(histories[i].log, now);
        }
        metric := histories[i].ComputeMetric(E, now);
      }
    }

    method Measure(E: nat -> Positive, i: nat, now: nat)
      requires Valid() && Growing(E) && InPast(now) && i < |node.links|
      modifies this`node
      ensures Valid() && node == old(node).(links := node.links)
      ensures |node.links| == |old(node).links| && node.links == old(node).links[i := node.links[i]]
      ensures RemeasuredLink(node.links[i], old(node.links[i]), dt)
      ensures dt ==> Gives(histories[i], E, now, node.links[i].metric)
    {
      var metric := MetricOf(E, i, now);
      SetMetric(i, metric);
    }

    /** The metrics of these links are those that the histories give at `time`. */
    ghost predicate HistoriesGive(links: seq<Link>, E: nat -> Positive, time: nat)
      reads histories
    {
      |links| >= |histories| && forall i :: 0 <= i < |histories| ==> Gives(histories[i], E, time, links[i].metric)
    }

    /** While a link stays down, its metric does not fall from one measurement to the next. */
    lemma DownMetricsDecay(E: nat -> Positive, links0: seq<Link>, then_: nat, now: nat)
      requires Valid() && Growing(E) && InPast(then_) && then_ <= now && |links0| == |node.links|
      requires HistoriesGive(node.links, E, now) && HistoriesGive(links0, E, then_)
      ensures dt ==> NotLowered(node.links, links0)
    {
      if dt {
        forall i | 0 <= i < |node.links| && node.links[i].status == Down ensures links0[i].metric <= node.links[i].metric {
          assert Tracks(histories[i], Down);
          HistoryDecays(histories[i], E, then_, now);
        }
      }
    }

    /** `local_node_update_metrics` */
    method UpdateMetrics(E: nat -> Positive, now: nat)
      requires Valid() && Growing(E) && InPast(now)
      modifies this`node
      ensures Valid()
      ensures Remeasured(node, old(node), now, dt) && HistoriesGive(node.links, E, now)
      ensures forall then_: nat :: old(HistoriesGive(node.links, E, then_)) && old(InPast(then_)) && then_ <= now && dt ==>
                NotLowered(node.links, old(node.links))
    {
      MeasureAll(E, now);
      forall then_: nat | old(HistoriesGive(node.links, E, then_)) && old(InPast(then_)) && then_ <= now && dt
        ensures NotLowered(node.links, old(node.links))
      {
        DownMetricsDecay(E, old(node.links), then_, now);
      }
    }

    method MeasureAll(E: nat -> Positive, now: nat)
      requires Valid() && Growing(E) && InPast(now)
      modifies this`node
      ensures Valid()
      ensures Remeasured(node, old(node), now, dt) && HistoriesGive(node.links, E, now)
    {
      ghost var was := node.links;
      node := node.(timestamp := now);
      for i := 0 to |node.links|
        invariant Valid() && |node.links| == |was| && node == old(node).(timestamp := now, links := node.links)
        invariant forall k :: 0 <= k < i ==> RemeasuredLink(node.links[k], was[k], dt)
        invariant forall k :: i <= k < |was| ==> node.links[k] == was[k]
        invariant forall k :: 0 <= k < i && dt ==> Gives(histories[k], E, now, node.links[k].metric)
      {
        Measure(E, i, now);
      }
    }

    method SetMetric(i: nat, metric: real)
      requires Valid() && i < |node.links|
      modifies this`node
      ensures Valid() && node == old(node).(links := node.links) && |node.links| == |old(node).links|
      ensures node.links == old(node).links[i := old(node).links[i].(metric := metric)]
    {
      node := node.(links := node.links[i := node.links[i].(metric := metric)]);
      assert forall k :: 0 <= k < |histories| ==> Tracks(histories[k], old(node.links[k].status));
    }
  }

  /** Link l is l0 with a metric in range, which is 1 unless the link is down in the DTLSR build. */
  ghost predicate RemeasuredLink(l: Link, l0: Link, dt: bool) {
    l == l0.(metric := l.metric) && 0.0 < l.metric <= 10000.0 && (!dt || l.status == Up ==> l.metric == 1.0)
  }

  ghost predicate Remeasured(node: Node, node0: Node, now: nat, dt: bool) {
    && node == node0.(timestamp := now, links := node.links) && |node.links| == |node0.links|
    && forall k :: 0 <= k < |node.links| ==> RemeasuredLink(node.links[k], node0.links[k], dt)
  }

  /** No link that is down got a smaller metric. */
  ghost predicate NotLowered(links: seq<Link>, links0: seq<Link>)
    requires |links| == |links0|
  {
    forall i :: 0 <= i < |links| && links[i].status == Down ==> links0[i].metric <= links[i].metric
  }

  /** The metric that a history gives at a time. */
  ghost predicate Gives(h: LSTimeSeries, E: nat -> Positive, time: nat, metric: real)
    reads h
  {
    && |h.log| > 0 && Growing(E) && (StateAfter(h.initial, |h.log|) == Down && |h.log| > 1 ==> Retained(h.log)[0] < time)
    && metric == Metric(E, h.initial, h.log, time)
  }

  lemma HistoryDecays(h: LSTimeSeries, E: nat -> Positive, then_: nat, now: nat)
    requires Tracks(h, Down) && Growing(E) && Newest(h) <= then_ <= now
    ensures Metric(E, h.initial, h.log, then_) <= Metric(E, h.initial, h.log, now)
  {
    FallIsAfterOldest(h.log, then_);
    MetricDecays(E, h.initial, h.log, then_, now);
  }

  lemma FallIsAfterOldest(log: seq<nat>, now: nat)
    requires Sorted(log) && |log| > 0 && log[|log| - 1] <= now
    requires |log| > 1 ==> log[|log| - 2] < log[|log| - 1]
    ensures |log| > 1 ==> Retained(log)[0] < now
  {
    if |log| > 1 { RetainedAt(log, 0); }
  }

  ghost function Newest(h: LSTimeSeries): nat
    reads h
  {
    if |h.log| > 0 then h.log[|h.log| - 1] else 0
  }

  lemma SortedIsBounded(log: seq<nat>)
    requires Sorted(log)
    ensures forall k :: 0 <= k < |log| ==> log[k] <= log[|log| - 1]
  {
  }

  /** The history belongs to a link with this status, and its last fall came strictly after what went before. */
  ghost predicate Tracks(h: LSTimeSeries, status: LinkState)
    reads h, h.timestamps
  {
    && h.Valid() && h.currLinkState == status && |h.log| > 0
    && (status == Down && |h.log| > 1 ==> h.log[|h.log| - 2] < h.log[|h.log| - 1])
  }

  // ---------- Sending ----------

  /** `send_router_lsa_except`, and the request loop: one datagram per link but those to `except`. */
  method SendExcept(links: seq<Link>, body: Body, except: Ipv4) returns (sent: seq<Packet>)
    ensures sent == Copies(links, body, except)
  {
    sent := [];
    for i := 0 to |links|
      invariant sent == Copies(links[..i], body, except)
    {
      assert links[..i + 1][..i] == links[..i];
      if links[i].neighbourIp != except {
        sent := sent + [Packet(links[i].neighbourId, links[i].sourceIp, body)];
      }
    }
    assert links[..|links|] == links;
  }

  /** `send_network_lsa`: only to a neighbour. */
  method SendNetworkLsa(links: seq<Link>, graph: array<Node>, dest: Ipv4) returns (sent: seq<Packet>)
    ensures sent == Reply(links, graph[..], dest)
  {
    assert links[0..] == links;
    for i := 0 to |links|
      invariant Reply(links, graph[..], dest) == Reply(links[i..], graph[..], dest)
    {
      assert links[i..][1..] == links[i + 1..];
      if links[i].neighbourIp == dest {
        return [Packet(links[i].neighbourId, links[i].sourceIp, NetworkLsa(graph[..]))];
      }
    }
    return [];
  }

  ghost function Requests(links: seq<Link>): seq<Packet> {
    seq(|links|, i requires 0 <= i < |links| => Packet(links[i].neighbourId, links[i].sourceIp, NetworkRequest))
  }

  // ---------- The daemon ----------

  datatype Event =
    | Heartbeat(source: Ipv4)
    | Arrival(p: Packet)
    | LsaTimer
    | RecomputeTimer
    | HeartbeatTimeout(link: nat)

  lemma MeasuredIsGood(me: Node, wiring: seq<Link>, n: nat)
    requires me.state == Seen && 1 <= me.id <= n && GoodLinks(wiring, n) && |me.links| == |wiring|
    requires forall i :: 0 <= i < |wiring| ==> me.links[i].neighbourId == wiring[i].neighbourId &&
                                               me.links[i].neighbourIp == wiring[i].neighbourIp
    requires MetricsInRange(me.links)
    ensures GoodRecord(me, n) && InRange(me, n)
  {
  }

  /** The record has this wiring, and all links are down. */
  ghost predicate AllDown(me: Node, wiring: seq<Link>) {
    && me.state == Seen && |me.links| == |wiring|
    && forall k :: 0 <= k < |wiring| ==> me.links[k] == wiring[k].(status := Down, metric := me.links[k].metric)
  }

  method BootLocal(n: nat, id: int, wiring: seq<Link>, dt: bool, E: nat -> Positive, now: nat)
      returns (local: LocalNode)
    requires 1 <= id <= n && |wiring| <= MAX_NODE_FAN && GoodLinks(wiring, n) && Growing(E)
    ensures fresh(local.Repr) && local.Valid() && local.InPast(now) && local.dt == dt
    ensures local.node.id == id && local.node.timestamp == now
    ensures GoodRecord(local.node, n) && InRange(local.node, n) && MetricsInRange(local.node.links)
    ensures AllDown(local.node, wiring)
  {
    local := new LocalNode(id, wiring, dt, now);
    local.UpdateMetrics(E, now);
    RemeasuredInRange(local.node.links, wiring, dt);
    MeasuredIsGood(local.node, wiring, n);
  }

  lemma RemeasuredInRange(links: seq<Link>, wiring: seq<Link>, dt: bool)
    requires |links| == |wiring|
    requires forall k :: 0 <= k < |links| ==> RemeasuredLink(links[k], wiring[k].(status := Down), dt)
    ensures MetricsInRange(links)
    ensures forall k :: 0 <= k < |links| ==> links[k] == wiring[k].(status := Down, metric := links[k].metric)
  {
    forall k | 0 <= k < |links|
      ensures 0.0 < links[k].metric <= 10000.0 && links[k] == wiring[k].(status := Down, metric := links[k].metric)
    {
      assert RemeasuredLink(links[k], wiring[k].(status := Down), dt);
    }
  }

  method BootGraph(n: nat, me: Node) returns (g: array<Node>)
    requires GoodRecord(me, n) && InRange(me, n)
    ensures fresh(g) && g.Length == n && g[..] == StoreOwn(InitialGraph(n), me) && GoodDatabase(g[..])
  {
    g := new Node[n](_ => Node(0, Unseen, [], 0));
    GraphInit(g);
    assert g[..] == InitialGraph(n);
    InitialIsGood(n);
    WritersKeepDatabase(g[..], me, g[..]);
    UpdateGlobal(g, me);
  }

  method Boot(n: nat, id: int, wiring: seq<Link>, dt: bool, E: nat -> Positive, now: nat)
      returns (local: LocalNode, g: array<Node>, hops: array<HopDest>)
    requires 1 <= id <= n && |wiring| <= MAX_NODE_FAN && GoodLinks(wiring, n) && Growing(E)
    ensures fresh(local.Repr) && fresh(g) && fresh(hops) && g !in local.Repr && hops !in local.Repr
    ensures local.Valid() && local.InPast(now) && local.node.id == id && local.node.timestamp == now
    ensures GoodRecord(local.node, n) && InRange(local.node, n) && MetricsInRange(local.node.links)
    ensures AllDown(local.node, wiring)
    ensures g.Length == n == hops.Length && g[..] == StoreOwn(InitialGraph(n), local.node) && GoodDatabase(g[..])
  {
    // zero-filled, not -1, until the first path computation
    hops := new HopDest[n](_ => HopDest(0, NO_IP, 0, Down));
    local := BootLocal(n, id, wiring, dt, E, now);
    g := BootGraph(n, local.node);
  }

  class Daemon {
    const graph: array<Node>
    const this_: LocalNode
    const nextHops: array<HopDest>

    /** The boot part of `driver`. */
    constructor (n: nat, id: int, wiring: seq<Link>, dt: bool, E: nat -> Positive, now: nat)
      requires 1 <= id <= n && |wiring| <= MAX_NODE_FAN && GoodLinks(wiring, n) && Growing(E)
      ensures Valid() && graph.Length == n && this_.node.id == id && this_.InPast(now)
      ensures this_.node.timestamp == now && MetricsInRange(this_.node.links) && AllDown(this_.node, wiring)
      ensures graph[..] == StoreOwn(InitialGraph(n), this_.node)
    {
      var local, g, hops := Boot(n, id, wiring, dt, E, now);
      this_ := local;
      graph := g;
      nextHops := hops;
    }

    /** After boot, asks every neighbour for its database. */
    method RequestNetworkLsa() returns (sent: seq<Packet>)
      ensures sent == Requests(this_.node.links)
    {
      sent := [];
      for i := 0 to |this_.node.links|
        invariant sent == Requests(this_.node.links[..i])
      {
        sent := sent + [Packet(this_.node.links[i].neighbourId, this_.node.links[i].sourceIp, NetworkRequest)];
      }
      assert this_.node.links[..|this_.node.links|] == this_.node.links;
    }

    ghost function State(): Router
      reads graph, this_
    {
      Router(this_.node, graph[..])
    }

    ghost predicate Valid()
      reads graph, nextHops, this_, this_.Repr
    {
      && this_.Valid() && nextHops.Length == graph.Length
      && graph !in this_.Repr && nextHops !in this_.Repr
      && GoodDatabase(graph[..]) && GoodRecord(this_.node, graph.Length)
    }

    /** The clock may show `now`. */
    ghost predicate Ready(now: nat)
      reads graph, nextHops, this_, this_.Repr
    {
      Valid() && this_.InPast(now) && this_.node.timestamp <= now
    }

    lemma StillReady(now: nat, later: nat)
      requires Ready(now) && now <= later
      ensures Ready(later)
    {
    }

    /** Packets that a well-behaved router can have sent. */
    ghost predicate Expected(p: Packet)
      reads graph
    {
      match p.body
      case RouterLsa(lsa) => GoodRecord(lsa, graph.Length)
      case NetworkLsa(g) => |g| == graph.Length && GoodDatabase(g)
      case NetworkRequest => true
    }

    method Merge(lsa: Node) returns (updated: bool)
      requires Valid() && GoodRecord(lsa, graph.Length) && InRange(lsa, graph.Length)
      modifies graph
      ensures Valid() && State() == Router(old(this_.node), MergeNode(old(graph[..]), lsa))
      ensures updated <==> Accepts(old(graph[..])[lsa.id - 1], lsa)
    {
      WritersKeepDatabase(graph[..], lsa, graph[..]);
      updated := MergeInNode(graph, lsa);
    }

    method ReceiveRouterLsa(p: Packet) returns (sent: seq<Packet>)
      requires Valid() && p.body.RouterLsa? && Expected(p) && Deliverable(State(), p)
      modifies graph
      ensures Valid() && State() == Receive(old(State()), p) && sent == Response(old(State()), p)
    {
      var lsa := p.body.lsa;
      var updated := Merge(lsa);
      if updated {
        sent := SendExcept(this_.node.links, RouterLsa(lsa), p.source);
      } else {
        sent := [];
      }
    }

    method ReceiveNetworkLsa(p: Packet)
      requires Valid() && p.body.NetworkLsa? && Expected(p) && Deliverable(State(), p)
      modifies graph
      ensures Valid() && State() == Receive(old(State()), p)
    {
      MergeKeepsDatabase(graph[..], p.body.graph);
      var updated := MergeInGraph(graph, p.body.graph);
    }

    method ReceiveNetworkLsaRequest(p: Packet) returns (sent: seq<Packet>)
      requires Valid() && p.body.NetworkRequest?
      ensures sent == Response(State(), p)
    {
      sent := SendNetworkLsa(this_.node.links, graph, p.source);
    }

    /** Brings the own record up to date, for sending. */
    method Refresh(E: nat -> Positive, now: nat)
      requires Ready(now) && Growing(E)
      modifies this_`node
      ensures Ready(now) && Remeasured(this_.node, old(this_.node), now, this_.dt)
      ensures this_.HistoriesGive(this_.node.links, E, now)
    {
      this_.UpdateMetrics(E, now);
      RemeasuredIsNext(this_.node, old(this_.node), now, this_.dt, graph.Length);
    }

    /** `update_global_this` */
    method UpdateGlobalThis(E: nat -> Positive, now: nat)
      requires Ready(now) && Growing(E)
      modifies this_`node, graph
      ensures Ready(now) && Remeasured(this_.node, old(this_.node), now, this_.dt)
      ensures this_.HistoriesGive(this_.node.links, E, now)
      ensures graph[..] == StoreOwn(old(graph[..]), this_.node)
    {
      Refresh(E, now);
      WritersKeepDatabase(graph[..], this_.node, graph[..]);
      UpdateGlobal(graph, this_.node);
    }

    /** Stores the own record, then recomputes the routes from the graph that has it. */
    method Recompute(E: nat -> Positive, now: nat) returns (ghost t: Labels)
      requires Ready(now) && Growing(E)
      modifies this_`node, graph, nextHops
      ensures Ready(now) && Remeasured(this_.node, old(this_.node), now, this_.dt)
      ensures this_.HistoriesGive(this_.node.links, E, now)
      ensures graph[..] == StoreOwn(old(graph[..]), this_.node)
      ensures IsTable(graph[..], this_.dt, this_.node.id, t, nextHops[..])
      ensures OverNeighbours(this_.node.links, nextHops[..])
    {
      UpdateGlobalThis(E, now);
      t := Pathfind.Pathfind(graph, this_.node.id, nextHops, this_.dt);
      RoutesUseOwnLinks(old(graph[..]), this_.node, this_.dt, t, nextHops[..]);
    }

    /** A heartbeat raises a link, or a timer drops one. */
    method HandleLinkEvent(ev: Event, now: nat) returns (updated: bool)
      requires Ready(now) && (ev.Heartbeat? || ev.HeartbeatTimeout?) && TimerRanOut(ev, now)
      modifies this_.Repr
      ensures Ready(now) && SameWiring(this_.node, old(this_.node))
      ensures updated <==> ChangesLink(ev, old(this_.node.links))
      ensures this_.node == old(this_.node).(links := AfterLinkEvent(ev, old(this_.node.links)))
    {
      LinkEventIsGood(ev, this_.node, graph.Length);
      if ev.Heartbeat? {
        updated := this_.RegisterHeartbeat(ev.source, now);
      } else {
        updated := this_.TimeoutHeartbeat(ev.link, now);
      }
    }

    /** The part of an event's handling that concerns links; a lost link is measured and stored in the graph at once. */
    method HandleLinks(ev: Event, E: nat -> Positive, now: nat, later: nat) returns (updated: bool)
      requires Ready(now) && TimerRanOut(ev, now) && Growing(E) && now <= later
      modifies this_.Repr, graph
      ensures Ready(later) && (updated <==> ChangesLink(ev, old(this_.node.links)))
      ensures LinksHandled(ev, old(State()), State(), later, this_.dt)
    {
      updated := false;
      if ev.Heartbeat? || ev.HeartbeatTimeout? {
        updated := HandleLinkEvent(ev, now);
      }
      StillReady(now, later);
      if ev.HeartbeatTimeout? && updated {
        UpdateGlobalThis(E, later);
      }
    }

    /** A link's timer is set when it rises, so when it fires the clock has moved on. */
    ghost predicate TimerRanOut(ev: Event, now: nat)
      reads this_, this_.Repr
      requires this_.Valid()
    {
      ev.HeartbeatTimeout? && this_.dt && ev.link < |this_.node.links| && this_.node.links[ev.link].status == Up ==>
        Newest(this_.histories[ev.link]) < now
    }

    /** Sends the own record, brought up to date, over every link. */
    method Announce(E: nat -> Positive, now: nat) returns (sent: seq<Packet>)
      requires Ready(now) && Growing(E)
      modifies this_`node
      ensures Ready(now) && Remeasured(this_.node, old(this_.node), now, this_.dt)
      ensures this_.HistoriesGive(this_.node.links, E, now)
      ensures sent == Copies(this_.node.links, RouterLsa(this_.node), NO_IP)
    {
      Refresh(E, now);
      var me := this_.node;
      sent := SendExcept(me.links, RouterLsa(me), NO_IP);
    }

    method ReceivePacket(p: Packet) returns (sent: seq<Packet>)
      requires Valid() && Expected(p) && Deliverable(State(), p)
      modifies graph
      ensures Valid() && State() == Receive(old(State()), p) && sent == Response(old(State()), p)
    {
      match p.body
      case RouterLsa(_) =>
        sent := ReceiveRouterLsa(p);
      case NetworkLsa(_) =>
        ReceiveNetworkLsa(p);
        sent := [];
      case NetworkRequest =>
        sent := ReceiveNetworkLsaRequest(p);
    }

    /** A turn for a timer or a heartbeat; times[i] is the i-th reading of the clock. */
    method HandleOwnEvent(ev: Event, E: nat -> Positive, times: seq<nat>)
        returns (sent: seq<Packet>, ghost announced: Node, ghost t: Labels)
      requires ClockReadings(times) && !ev.Arrival?
      requires Ready(times[0]) && Growing(E) && TimerRanOut(ev, times[0])
      modifies this_.Repr, graph, nextHops
      ensures Ready(times[3])
      ensures OwnTurn(ev, old(State()), State(), sent, announced, times, this_.dt)
      ensures Announces(ev, old(this_.node.links)) ==> this_.HistoriesGive(announced.links, E, times[2])
      ensures if Computes(ev, old(this_.node.links)) then RoutesFresh(E, times[3], t) else nextHops[..] == old(nextHops[..])
    {
      ghost var r0 := State();
      var updated := HandleLinks(ev, E, times[0], times[1]);
      ghost var r1 := State();
      StillReady(times[1], times[2]);
      sent, announced, t := Publish(ev.LsaTimer? || updated, ev.RecomputeTimer? || updated, E, times[2], times[3]);
      PartsMakeTurn(ev, r0, r1, State(), announced, times, this_.dt);
    }

    /**
     One turn of the event loop. An arriving packet is received and answered. A link that changes state, or the timer,
     leads to an announcement of the record with its metrics measured anew; a change of state, or the recomputation timer
     (DTLSR only), to new routes from a graph that holds such a record. Other events leave all this alone.
     */
    method HandleEvent(ev: Event, E: nat -> Positive, times: seq<nat>)
        returns (sent: seq<Packet>, ghost announced: Node, ghost t: Labels)
      requires ClockReadings(times) && Ready(times[0]) && Growing(E) && TimerRanOut(ev, times[0])
      requires ev.Arrival? ==> Expected(ev.p) && Deliverable(State(), ev.p)
      modifies this_.Repr, graph, nextHops
      ensures Ready(times[3])
      ensures Turn(ev, old(State()), State(), sent, announced, times, this_.dt)
      ensures Announces(ev, old(this_.node.links)) ==> this_.HistoriesGive(announced.links, E, times[2])
      ensures if Computes(ev, old(this_.node.links)) then RoutesFresh(E, times[3], t) else nextHops[..] == old(nextHops[..])
    {
      if ev.Arrival? {
        sent := ReceivePacket(ev.p);
        announced, t := this_.node, Labels([], [], [], [], 0);
        StillReady(times[0], times[3]);
      } else {
        sent, announced, t := HandleOwnEvent(ev, E, times);
      }
    }

    /** The metrics of the own record are those of `time`, and the table is that of the present graph, over neighbours. */
    ghost predicate RoutesFresh(E: nat -> Positive, time: nat, t: Labels)
      reads this_, this_.histories, graph, nextHops
    {
      && this_.HistoriesGive(this_.node.links, E, time)
      && IsTable(graph[..], this_.dt, this_.node.id, t, nextHops[..])
      && OverNeighbours(this_.node.links, nextHops[..])
    }

    lemma FreshMeans(E: nat -> Positive, time: nat, t: Labels)
      requires this_.Valid() && RoutesFresh(E, time, t)
      ensures IsTable(graph[..], this_.dt, this_.node.id, t, nextHops[..])
      ensures forall i :: 0 <= i < |nextHops[..]| && nextHops[..][i].nextHop != -1 ==>
                exists k :: 0 <= k < |this_.node.links| && this_.node.links[k].neighbourId == nextHops[..][i].nextHop
      ensures this_.dt ==> forall i :: 0 <= i < |this_.node.links| ==>
                Gives(this_.histories[i], E, time, this_.node.links[i].metric)
    {
    }

    /** The announcement and the path computation that conclude a turn of the event loop. */
    method Publish(send: bool, compute: bool, E: nat -> Positive, now: nat, later: nat)
        returns (sent: seq<Packet>, ghost announced: Node, ghost t: Labels)
      requires Ready(now) && Growing(E) && now <= later
      modifies this_`node, graph, nextHops
      ensures Ready(later)
      ensures sent == if send then Copies(announced.links, RouterLsa(announced), NO_IP) else []
      ensures Published(send, compute, old(State()), State(), announced, now, later, this_.dt)
      ensures send ==> this_.HistoriesGive(announced.links, E, now)
      ensures if compute then RoutesFresh(E, later, t) else nextHops[..] == old(nextHops[..])
    {
      ghost var r1 := State();
      sent, announced := MaybeAnnounce(send, E, now, later);
      ghost var r2 := State();
      t := MaybeRecompute(compute, E, later);
      PublishedInParts(send, compute, r1, r2, State(), announced, now, later, this_.dt);
    }

    method MaybeRecompute(compute: bool, E: nat -> Positive, now: nat) returns (ghost t: Labels)
      requires Ready(now) && Growing(E)
      modifies this_`node, graph, nextHops
      ensures Ready(now) && Recomputed(compute, old(State()), State(), now, this_.dt)
      ensures if compute then RoutesFresh(E, now, t) else nextHops[..] == old(nextHops[..])
    {
      t := Labels([], [], [], [], 0);
      if compute {
        t := Recompute(E, now);
      }
    }

    method MaybeAnnounce(send: bool, E: nat -> Positive, now: nat, ghost later: nat)
        returns (sent: seq<Packet>, ghost announced: Node)
      requires Ready(now) && Growing(E) && now <= later
      modifies this_`node
      ensures Ready(later) && Measured(send, old(State()), State(), announced, now, this_.dt)
      ensures send ==> this_.HistoriesGive(announced.links, E, now)
      ensures sent == if send then Copies(announced.links, RouterLsa(announced), NO_IP) else []
    {
      sent := [];
      if send {
        sent := Announce(E, now);
      }
      announced := this_.node;
    }
  }

  /** Measuring twice is as good as measuring the second time only. */
  lemma MeasuredAgain(node: Node, node1: Node, node0: Node, then_: nat, now: nat, dt: bool)
    requires node1 == node0 || Remeasured(node1, node0, then_, dt)
    ensures Remeasured(node, node1, now, dt) ==> Remeasured(node, node0, now, dt)
  {
    if Remeasured(node, node1, now, dt) {
      forall k | 0 <= k < |node.links| ensures RemeasuredLink(node.links[k], node0.links[k], dt) {
        assert RemeasuredLink(node.links[k], node1.links[k], dt);
      }
    }
  }

  /** So is storing twice. */
  lemma StoredAgain(g: seq<Node>, node1: Node, node: Node, now: nat, dt: bool)
    requires InRange(node1, |g|) && InRange(node, |g|) && node1.state == Seen && Remeasured(node, node1, now, dt)
    ensures StoreOwn(StoreOwn(g, node1), node) == StoreOwn(g, node)
  {
    forall k | 0 <= k < |node.links| ensures node.links[k].neighbourId == node1.links[k].neighbourId {
      assert RemeasuredLink(node.links[k], node1.links[k], dt);
    }
    forall id ensures IsNeighbour(node.links, id) == IsNeighbour(node1.links, id) {
    }
  }

  /** A change of status leaves a record good. */
  lemma LinkEventIsGood(ev: Event, me: Node, n: nat)
    requires GoodRecord(me, n)
    ensures GoodRecord(me.(links := AfterLinkEvent(ev, me.links)), n)
    ensures SameWiring(me.(links := AfterLinkEvent(ev, me.links)), me)
  {
  }

  /** The readings of the clock in one turn of the event loop. */
  predicate ClockReadings(times: seq<nat>) {
    |times| == 4 && times[0] <= times[1] <= times[2] <= times[3]
  }

  ghost predicate Announces(ev: Event, links: seq<Link>) { ev.LsaTimer? || ChangesLink(ev, links) }

  ghost predicate Computes(ev: Event, links: seq<Link>) { ev.RecomputeTimer? || ChangesLink(ev, links) }

  /** What a timer or a heartbeat makes of a router: its record and database, and the packets it sends. */
  ghost predicate OwnTurn(ev: Event, r0: Router, r: Router, sent: seq<Packet>, announced: Node, times: seq<nat>, dt: bool)
    requires ClockReadings(times)
  {
    var after := r0.me.(links := AfterLinkEvent(ev, r0.me.links));
    && sent == (if Announces(ev, r0.me.links) then Copies(announced.links, RouterLsa(announced), NO_IP) else [])
    && (Announces(ev, r0.me.links) ==> Remeasured(announced, after, times[2], dt))
    && if Computes(ev, r0.me.links) then
         Remeasured(r.me, after, times[3], dt) && InRange(r.me, |r0.graph|) && r.graph == StoreOwn(r0.graph, r.me)
       else
         r == Router(if Announces(ev, r0.me.links) then announced else r0.me, r0.graph)
  }

  ghost predicate Turn(ev: Event, r0: Router, r: Router, sent: seq<Packet>, announced: Node, times: seq<nat>, dt: bool)
    requires ClockReadings(times)
  {
    match ev
    case Arrival(p) => Deliverable(r0, p) && r == Receive(r0, p) && sent == Response(r0, p)
    case _ => OwnTurn(ev, r0, r, sent, announced, times, dt)
  }

  /** The record and database after the part of a turn that concerns links. */
  ghost predicate LinksHandled(ev: Event, r0: Router, r1: Router, now: nat, dt: bool) {
    var after := r0.me.(links := AfterLinkEvent(ev, r0.me.links));
    if ev.HeartbeatTimeout? && ChangesLink(ev, r0.me.links) then
      Remeasured(r1.me, after, now, dt) && InRange(r1.me, |r0.graph|) && r1.graph == StoreOwn(r0.graph, r1.me)
    else r1 == Router(after, r0.graph)
  }

  /** The record and database after the announcement and the path computation. */
  ghost predicate Published(send: bool, compute: bool, r1: Router, r: Router, announced: Node, now: nat, later: nat, dt: bool) {
    && (send ==> Remeasured(announced, r1.me, now, dt))
    && if compute then
         Remeasured(r.me, r1.me, later, dt) && InRange(r.me, |r1.graph|) && r.graph == StoreOwn(r1.graph, r.me)
       else r == Router(if send then announced else r1.me, r1.graph)
  }

  /** The record and database after a path computation, if there is one. */
  ghost predicate Recomputed(compute: bool, r2: Router, r: Router, now: nat, dt: bool) {
    if compute then
      Remeasured(r.me, r2.me, now, dt) && InRange(r.me, |r2.graph|) && r.graph == StoreOwn(r2.graph, r.me)
    else r == r2
  }

  /** The record and database after an announcement, if there is one. */
  ghost predicate Measured(send: bool, r1: Router, r2: Router, announced: Node, now: nat, dt: bool) {
    && r2 == Router(announced, r1.graph)
    && if send then Remeasured(announced, r1.me, now, dt) else announced == r1.me
  }

  lemma PublishedInParts(send: bool, compute: bool, r1: Router, r2: Router, r: Router, announced: Node, now: nat,
                         later: nat, dt: bool)
    requires Measured(send, r1, r2, announced, now, dt)
    requires Recomputed(compute, r2, r, later, dt)
    ensures Published(send, compute, r1, r, announced, now, later, dt)
  {
    MeasuredAgain(r.me, r2.me, r1.me, now, later, dt);
  }

  lemma PartsMakeTurn(ev: Event, r0: Router, r1: Router, r: Router, announced: Node, times: seq<nat>, dt: bool)
    requires ClockReadings(times) && !ev.Arrival? && r0.me.state == Seen && LinksHandled(ev, r0, r1, times[1], dt)
    requires Published(Announces(ev, r0.me.links), Computes(ev, r0.me.links), r1, r, announced, times[2], times[3], dt)
    ensures OwnTurn(ev, r0, r, if Announces(ev, r0.me.links) then Copies(announced.links, RouterLsa(announced), NO_IP) else [],
                    announced, times, dt)
  {
    var after := r0.me.(links := AfterLinkEvent(ev, r0.me.links));
    NoChangeNoEffect(ev, r0.me.links);
    MeasuredAgain(announced, r1.me, after, times[1], times[2], dt);
    MeasuredAgain(r.me, r1.me, after, times[1], times[3], dt);
    if ev.HeartbeatTimeout? && ChangesLink(ev, r0.me.links) {
      StoredAgain(r0.graph, r1.me, r.me, times[3], dt);
    }
  }

  lemma NoChangeNoEffect(ev: Event, links: seq<Link>)
    ensures !ChangesLink(ev, links) ==> AfterLinkEvent(ev, links) == links
  {
  }

  /** Whether a link event finds a link in the state it ends. */
  ghost predicate ChangesLink(ev: Event, links: seq<Link>) {
    match ev
    case Heartbeat(source) => LinkToRaise(links, source) < |links|
    case HeartbeatTimeout(k) => k < |links| && links[k].status == Up
    case _ => false
  }

  ghost function AfterLinkEvent(ev: Event, links: seq<Link>): seq<Link> {
    match ev
    case Heartbeat(source) => WithStatus(links, LinkToRaise(links, source), Up)
    case HeartbeatTimeout(k) => WithStatus(links, k, Down)
    case _ => links
  }

  lemma RemeasuredIsNext(me: Node, me0: Node, now: nat, dt: bool, n: nat)
    requires Remeasured(me, me0, now, dt) && GoodRecord(me0, n) && me0.timestamp <= now
    ensures NextOwn(me, me0) && GoodRecord(me, n)
    ensures InRange(me, n)
  {
    assert GoodLinks(me0.links, n);
    forall k | 0 <= k < |me.links| ensures RemeasuredLink(me.links[k], me0.links[k], dt) {
    }
  }

  /** What an event makes of the own record is a step that the network model allows: `Flooding.NextRecord`. */
  lemma EventGivesNextRecord(ev: Event, me: Node, me0: Node, now: nat, dt: bool, n: nat)
    requires GoodRecord(me0, n) && me0.timestamp <= now
    requires Remeasured(me, me0.(links := AfterLinkEvent(ev, me0.links)), now, dt)
    ensures NextOwn(me, me0) && GoodRecord(me, n)
  {
    LinkEventIsGood(ev, me0, n);
    RemeasuredIsNext(me, me0.(links := AfterLinkEvent(ev, me0.links)), now, dt, n);
  }

  // ---------- What turns amount to ----------

  /** Link i, if any, is the one whose state the event ends: the first down from the sender, or the one that timed out. */
  ghost predicate EndsStateOf(ev: Event, links: seq<Link>, i: int, status: LinkState) {
    match ev
    case Heartbeat(source) => status == Up && FirstDownFrom(links, source, i)
    case HeartbeatTimeout(k) => status == Down && i == k < |links| && links[i].status == Up
    case _ => false
  }

  /** `me` follows `me0` at the given time: statuses as before, but for link i; metrics 1 unless down in DTLSR. */
  ghost predicate MeasuredWith(me: Node, me0: Node, time: nat, dt: bool, i: int, status: LinkState) {
    && me.id == me0.id && me.state == me0.state && me.timestamp == time && |me.links| == |me0.links|
    && forall j :: 0 <= j < |me.links| ==>
         && me.links[j].neighbourId == me0.links[j].neighbourId && me.links[j].neighbourIp == me0.links[j].neighbourIp
         && me.links[j].sourceIp == me0.links[j].sourceIp
         && me.links[j].status == (if j == i then status else me0.links[j].status)
         && 0.0 < me.links[j].metric <= 10000.0 && (!dt || me.links[j].status == Up ==> me.links[j].metric == 1.0)
  }

  /** The record goes out over every link. */
  ghost predicate SentToAll(sent: seq<Packet>, me: Node) {
    forall k :: 0 <= k < |me.links| && me.links[k].neighbourIp != NO_IP ==>
      Packet(me.links[k].neighbourId, me.links[k].sourceIp, RouterLsa(me)) in sent
  }

  lemma CopiesGoToAll(me: Node)
    ensures SentToAll(Copies(me.links, RouterLsa(me), NO_IP), me)
  {
    forall k | 0 <= k < |me.links| && me.links[k].neighbourIp != NO_IP
      ensures Packet(me.links[k].neighbourId, me.links[k].sourceIp, RouterLsa(me)) in Copies(me.links, RouterLsa(me), NO_IP)
    {
      var i := CopyPerLink(me.links, RouterLsa(me), NO_IP, k);
    }
  }

  lemma RemeasuredKeeps(me: Node, after: Node, me0: Node, now: nat, dt: bool, i: int, status: LinkState)
    requires Remeasured(me, after, now, dt)
    requires after == me0 || OnlyLinkChanged(after, me0, i, status)
    ensures MeasuredWith(me, me0, now, dt, if after == me0 then -1 else i, status)
  {
    forall j | 0 <= j < |me.links|
      ensures me.links[j] == after.links[j].(metric := me.links[j].metric) && 0.0 < me.links[j].metric <= 10000.0
      ensures !dt || me.links[j].status == Up ==> me.links[j].metric == 1.0
    {
      assert RemeasuredLink(me.links[j], after.links[j], dt);
    }
  }

  lemma {:induction false} FirstIsFound(links: seq<Link>, source: Ipv4, i: int)
    requires FirstDownFrom(links, source, i)
    ensures LinkToRaise(links, source) == i
  {
    if i > 0 {
      assert !DownFrom(links, source, 0);
      forall j | 0 <= j < i - 1 ensures !DownFrom(links[1..], source, j) {
        assert !DownFrom(links, source, j + 1);
      }
      FirstIsFound(links[1..], source, i - 1);
    }
  }

  lemma EndedState(ev: Event, me0: Node, i: int, status: LinkState)
    requires EndsStateOf(ev, me0.links, i, status)
    ensures OnlyLinkChanged(me0.(links := AfterLinkEvent(ev, me0.links)), me0, i, status)
    ensures ChangesLink(ev, me0.links)
  {
    if ev.Heartbeat? {
      FirstIsFound(me0.links, ev.source, i);
    }
  }

  /**
   A heartbeat from a neighbour whose link is down, or the time-out of one whose link is up: the link changes its state,
   the record with that goes out over every link, and the record is stored.
   */
  lemma ChangeIsAnnounced(ev: Event, i: int, status: LinkState, r0: Router, r: Router, sent: seq<Packet>, announced: Node,
                          times: seq<nat>, dt: bool)
    requires ClockReadings(times) && OwnTurn(ev, r0, r, sent, announced, times, dt)
    requires EndsStateOf(ev, r0.me.links, i, status)
    ensures MeasuredWith(announced, r0.me, times[2], dt, i, status) && SentToAll(sent, announced)
    ensures MeasuredWith(r.me, r0.me, times[3], dt, i, status)
    ensures 1 <= r.me.id <= |r.graph| && (r.me.state == Seen ==> r.graph[r.me.id - 1] == r.me)
    ensures Computes(ev, r0.me.links)
  {
    EndedState(ev, r0.me, i, status);
    var after := r0.me.(links := AfterLinkEvent(ev, r0.me.links));
    RemeasuredKeeps(announced, after, r0.me, times[2], dt, i, status);
    RemeasuredKeeps(r.me, after, r0.me, times[3], dt, i, status);
    CopiesGoToAll(announced);
  }

  /** The timer of the announcement sends the record, brought up to date, over every link, and does nothing else. */
  lemma TimerAnnounces(r0: Router, r: Router, sent: seq<Packet>, announced: Node, times: seq<nat>, dt: bool)
    requires ClockReadings(times) && OwnTurn(LsaTimer, r0, r, sent, announced, times, dt)
    ensures MeasuredWith(announced, r0.me, times[2], dt, -1, Up) && SentToAll(sent, announced)
    ensures r == Router(announced, r0.graph) && !Computes(LsaTimer, r0.me.links)
  {
    RemeasuredKeeps(announced, r0.me, r0.me, times[2], dt, -1, Up);
    CopiesGoToAll(announced);
  }

  /** The recomputation timer stores the record, brought up to date, and sends nothing. */
  lemma TimerStores(r0: Router, r: Router, sent: seq<Packet>, announced: Node, times: seq<nat>, dt: bool)
    requires ClockReadings(times) && OwnTurn(RecomputeTimer, r0, r, sent, announced, times, dt)
    ensures sent == [] && MeasuredWith(r.me, r0.me, times[3], dt, -1, Up) && Computes(RecomputeTimer, r0.me.links)
    ensures 1 <= r.me.id <= |r.graph| && (r.me.state == Seen ==> r.graph[r.me.id - 1] == r.me)
  {
    RemeasuredKeeps(r.me, r0.me, r0.me, times[3], dt, -1, Up);
  }

  /** A heartbeat or a time-out that ends no link's state changes and sends nothing. */
  lemma NothingHappens(ev: Event, r0: Router, r: Router, sent: seq<Packet>, announced: Node, times: seq<nat>, dt: bool)
    requires ClockReadings(times) && OwnTurn(ev, r0, r, sent, announced, times, dt)
    requires ev.Heartbeat? || ev.HeartbeatTimeout?
    requires forall i, status :: !EndsStateOf(ev, r0.me.links, i, status)
    ensures r == r0 && sent == [] && !Computes(ev, r0.me.links)
  {
    ChangedLink(ev, r0.me.links);
  }

  lemma ChangedLink(ev: Event, links: seq<Link>)
    ensures ChangesLink(ev, links) ==> exists i, status :: EndsStateOf(ev, links, i, status)
  {
    if ChangesLink(ev, links) {
      var i := if ev.Heartbeat? then LinkToRaise(links, ev.source) else ev.link;
      assert EndsStateOf(ev, links, i, if ev.Heartbeat? then Up else Down);
    }
  }

  /** Every next hop in a table computed from a graph that has the own record is a neighbour on that record. */
  lemma RoutesUseOwnLinks(g0: seq<Node>, me: Node, dt: bool, t: Labels, table: seq<HopDest>)
    requires InRange(me, |g0|) && me.state == Seen && IsTable(StoreOwn(g0, me), dt, me.id, t, table)
    ensures OverNeighbours(me.links, table)
  {
    var g := StoreOwn(g0, me);
    assert g[me.id - 1] == me;
    forall v | 0 <= v < |table| && table[v].nextHop != -1
      ensures exists k :: 0 <= k < |me.links| && me.links[k].neighbourId == table[v].nextHop
    {
      var k, w := RouteIsShortest(g, dt, me.id, t, table, v);
    }
  }
}
