/** What the pieces guarantee together, in every state that a network of daemons can reach. */
module EndToEnd {
  import opened Network
  import opened ShortestPaths
  import opened Routes
  import opened Forwarding
  import opened Agreement
  import opened Database
  import opened Protocol
  import opened Flooding
  import opened RouteControl
  import Coverage

  /** With the code's constants the sentinel exceeds every simple path, even at the 50,000 per link the code reckons with. */
  lemma SentinelIsLarge()
    ensures Hops(10000.0, MAX_NODE_NUM) < INFINITE_DISTANCE
    ensures Hops(50000.0, MAX_NODE_NUM) == 600000.0 < INFINITE_DISTANCE == 4298769225.0
  {
    HopsAreProduct(10000.0, MAX_NODE_NUM);
    HopsAreProduct(50000.0, MAX_NODE_NUM);
  }

  lemma {:induction false} HopsAreProduct(bound: real, n: nat)
    ensures Hops(bound, n) == bound * n as real
  {
    if n > 0 { HopsAreProduct(bound, n - 1); }
  }

  /** The metrics in any reachable database are those of the link histories. */
  lemma ReachableMetrics(s: System, r: int, dt: bool)
    requires Sane(s) && 0 <= r < |s.routers|
    ensures MetricsAtMost(s.routers[r].graph, 10000.0) && PositiveMetrics(s.routers[r].graph, dt)
    ensures GoodDatabase(s.routers[r].graph)
  {
    assert GoodRouter(s, r);
    var g := s.routers[r].graph;
    forall u, l | 0 <= u < |g| && g[u].state == Seen && 0 <= l < |g[u].links| ensures 0.0 < g[u].links[l].metric <= 10000.0 {
      EntryMetrics(s, r, u);
    }
  }

  lemma EntryMetrics(s: System, r: int, u: int)
    requires Sane(s) && 0 <= r < |s.routers| && 0 <= u < |s.routers[r].graph| && s.routers[r].graph[u].state == Seen
    ensures MetricsInRange(s.routers[r].graph[u].links)
    ensures u < |s.routers| && SameWiring(s.routers[r].graph[u], s.routers[u].me)
  {
    assert GoodRouter(s, r);
    assert GoodRouter(s, u);
    assert GoodSnapshot(s.routers[r].graph[u], s.routers[u].me, |s.routers|);
  }

  /** In a closed graph with metrics in range, a table has a route exactly for the other routers that can be reached. */
  lemma RouteIffReachable(g: seq<Node>, dt: bool, src: int, t: Labels, table: seq<HopDest>, v: int)
    requires IsTable(g, dt, src, t, table) && 0 <= v < |g| <= MAX_NODE_NUM
    requires Closed(g) && MetricsAtMost(g, 10000.0)
    ensures table[v].nextHop != -1 <==> v + 1 != src && Reachable(g, dt, src, v)
  {
    SentinelIsLarge();
    HopsGrow(10000.0, |g|, MAX_NODE_NUM);
    NoRouteIff(g, dt, src, t, table, v);
    PredecessorIffReachable(g, dt, src, t, 10000.0, v);
  }

  /** Next hops are neighbours on the router's own record, whatever its links have gone through since. */
  lemma NextHopIsNeighbour(s: System, r: int, dt: bool, t: Labels, table: seq<HopDest>, v: int)
    requires Sane(s) && 0 <= r < |s.routers| && IsTable(s.routers[r].graph, dt, r + 1, t, table)
    requires 0 <= v < |table| && table[v].nextHop != -1
    ensures exists k :: 0 <= k < |s.routers[r].me.links| && s.routers[r].me.links[k].neighbourId == table[v].nextHop
  {
    var k, w := RouteIsShortest(s.routers[r].graph, dt, r + 1, t, table, v);
    EntryMetrics(s, r, r);
    assert s.routers[r].me.links[k].neighbourId == table[v].nextHop;
  }

  lemma SaneRoutesAreExact(s: System, r: int, dt: bool, t: Labels, table: seq<HopDest>)
    requires Sane(s) && |s.routers| <= MAX_NODE_NUM && 0 <= r < |s.routers|
    requires IsTable(s.routers[r].graph, dt, r + 1, t, table)
    ensures ExactTable(s, r, dt, table)
  {
    ReachableMetrics(s, r, dt);
    var g := s.routers[r].graph;
    assert |g| == |s.routers| by { assert GoodRouter(s, r); }
    forall v | 0 <= v < |table| ensures table[v].nextHop != -1 <==> v != r && Reachable(g, dt, r + 1, v) {
      RouteIffReachable(g, dt, r + 1, t, table, v);
    }
    forall v | 0 <= v < |table| && table[v].nextHop != -1
      ensures exists k :: 0 <= k < |s.routers[r].me.links| && s.routers[r].me.links[k].neighbourId == table[v].nextHop
    {
      NextHopIsNeighbour(s, r, dt, t, table, v);
    }
  }

  /** The table has a route exactly for the other routers that r's database shows to be reachable, via r's neighbours. */
  ghost predicate ExactTable(s: System, r: int, dt: bool, table: seq<HopDest>)
    requires 0 <= r < |s.routers|
  {
    && (forall v :: 0 <= v < |table| ==>
          (table[v].nextHop != -1 <==> v != r && Reachable(s.routers[r].graph, dt, r + 1, v)))
    && OverNeighbours(s.routers[r].me.links, table)
  }

  /** In every reachable state, whatever was lost or restarted, a table computed from a router's database is exact. */
  lemma RoutesAreExact(s0: System, steps: seq<Step>, s: System, r: int, dt: bool, t: Labels, table: seq<HopDest>)
    requires Attained(s0, steps, s) && |s.routers| <= MAX_NODE_NUM && 0 <= r < |s.routers|
    requires IsTable(s.routers[r].graph, dt, r + 1, t, table)
    ensures ExactTable(s, r, dt, table)
  {
    AttainedIsSane(s0, steps, s);
    SaneRoutesAreExact(s, r, dt, t, table);
  }

  lemma OwnLinksAreGood(s: System, r: int)
    requires Sane(s) && 0 <= r < |s.routers|
    ensures GoodLinks(s.routers[r].me.links, |s.routers|)
  {
    assert GoodRouter(s, r);
    assert GoodNode(s.routers[r].me, |s.routers|);
  }

  /** Consequently every route that such a table asks the kernel for leads to a subnet through a neighbour's address. */
  lemma InstalledRoutesAreReal(s0: System, steps: seq<Step>, s: System, r: int, dt: bool, t: Labels,
            table: seq<HopDest>, rt: Route)
      returns (i: int, k: int)
    requires Attained(s0, steps, s) && |s.routers| <= MAX_NODE_NUM && 0 <= r < |s.routers|
    requires IsTable(s.routers[r].graph, dt, r + 1, t, table) && rt in Wanted(s.routers[r].me.links, table)
    ensures 0 <= i < |table| && i != r && Reachable(s.routers[r].graph, dt, r + 1, i)
    ensures rt.dst == Ipv4(table[i].destIp.a, table[i].destIp.b, table[i].destIp.c, 0) && rt.metric == table[i].metric
    ensures 0 <= k < |s.routers[r].me.links| && rt.gateway == s.routers[r].me.links[k].neighbourIp
    ensures s.routers[r].me.links[k].neighbourId == table[i].nextHop
  {
    RoutesAreExact(s0, steps, s, r, dt, t, table);
    AttainedIsSane(s0, steps, s);
    OwnLinksAreGood(s, r);
    i, k := RealRoute(s.routers[r].me.links, |s.routers|, table, rt);
  }

  lemma RealRoute(links: seq<Link>, n: nat, table: seq<HopDest>, rt: Route) returns (i: int, k: int)
    requires GoodLinks(links, n) && OverNeighbours(links, table) && rt in Wanted(links, table)
    ensures 0 <= i < |table| && table[i].nextHop != -1
    ensures rt.dst == Ipv4(table[i].destIp.a, table[i].destIp.b, table[i].destIp.c, 0) && rt.metric == table[i].metric
    ensures 0 <= k < |links| && rt.gateway == links[k].neighbourIp && links[k].neighbourId == table[i].nextHop
  {
    i, k := WantedIsVia(links, n, table, rt);
    assert IsVia(links, Filtered(table), i, k, rt);
  }

  // ---------- Convergence ----------

  /** The databases of all routers, by router. */
  ghost function Databases(s: System): (gs: seq<seq<Node>>)
    ensures |gs| == |s.routers| && forall r :: 0 <= r < |gs| ==> gs[r] == s.routers[r].graph
  {
    seq(|s.routers|, r requires 0 <= r < |s.routers| => s.routers[r].graph)
  }

  /** The own records of all routers: the network as it is at present. */
  ghost function Present(s: System): (g: seq<Node>)
    ensures |g| == |s.routers| && forall i :: 0 <= i < |g| ==> g[i] == s.routers[i].me
  {
    seq(|s.routers|, i requires 0 <= i < |s.routers| => s.routers[i].me)
  }

  /** Two entries that a merge would not tell apart, except that the content of entries not seen is of no account. */
  ghost predicate Agree(a: Node, b: Node) {
    a.state == b.state && (a.state == Seen ==> ContentEq(a, b))
  }

  /** Routers q and r agree about router i. */
  ghost predicate AgreeAbout(s: System, q: int, r: int, i: int)
    requires 0 <= q < |s.routers| && 0 <= r < |s.routers|
  {
    0 <= i < |s.routers[q].graph| && i < |s.routers[r].graph| && Agree(s.routers[q].graph[i], s.routers[r].graph[i])
  }

  /** All databases agree, whatever their time stamps. */
  ghost predicate Converged(s: System) {
    forall q, r, i :: 0 <= q < |s.routers| && 0 <= r < |s.routers| && 0 <= i < |s.routers| ==> AgreeAbout(s, q, r, i)
  }

  /** Router r knows what router i's record says at present. */
  ghost predicate UpToDateAbout(s: System, r: int, i: int)
    requires 0 <= r < |s.routers| && 0 <= i < |s.routers|
  {
    i < |s.routers[r].graph| && ContentEq(s.routers[r].graph[i], s.routers[i].me)
  }

  ghost predicate AllUpToDate(s: System) {
    forall r, i :: 0 <= r < |s.routers| && 0 <= i < |s.routers| ==> UpToDateAbout(s, r, i)
  }

  /** Records of one router have the same wiring, so those of equal content have the same links. */
  lemma ContentFixesLinks(a: Node, b: Node, me: Node)
    requires ContentEq(a, b) && SameWiring(a, me) && SameWiring(b, me)
    ensures a.links == b.links
  {
    forall i | 0 <= i < |a.links| ensures a.links[i] == b.links[i] { assert SameLink(a.links[i], b.links[i]); }
  }

  lemma AgreementFixesRecord(s: System, q: int, r: int, i: int)
    requires Sane(s) && 0 <= q < |s.routers| && 0 <= r < |s.routers| && AgreeAbout(s, q, r, i)
    ensures SameRecord(s.routers[q].graph[i], s.routers[r].graph[i])
  {
    assert GoodRouter(s, q) && GoodRouter(s, r);
    if s.routers[q].graph[i].state == Seen {
      EntryMetrics(s, q, i);
      EntryMetrics(s, r, i);
      ContentFixesLinks(s.routers[q].graph[i], s.routers[r].graph[i], s.routers[i].me);
    }
  }

  lemma ConvergedSayTheSame(s: System, q: int)
    requires Sane(s) && Converged(s) && 0 <= q < |s.routers|
    ensures |s.routers[q].graph| == |s.routers|
    ensures forall r :: 0 <= r < |s.routers| ==> SameRecords(s.routers[q].graph, s.routers[r].graph)
  {
    assert GoodRouter(s, q);
    forall r | 0 <= r < |s.routers| ensures SameRecords(s.routers[q].graph, s.routers[r].graph) {
      assert GoodRouter(s, r);
      forall i | 0 <= i < |s.routers| ensures SameRecord(s.routers[q].graph[i], s.routers[r].graph[i]) {
        assert AgreeAbout(s, q, r, i);
        AgreementFixesRecord(s, q, r, i);
      }
    }
  }

  /**
   When the databases of a reachable network agree in content, packets follow the tables, each computed by its router over
   its own database, to any destination with a route, without loops and at the distance the first router computed.
   */
  lemma ConvergedNetworkDelivers(s0: System, steps: seq<Step>, s: System, dt: bool, labels: seq<Labels>,
                                 tables: seq<seq<HopDest>>, a: int, d: int) returns (path: seq<int>)
    requires Attained(s0, steps, s) && Converged(s) && OwnTables(Databases(s), dt, labels, tables)
    requires 0 <= a < |s.routers| && 0 <= d < |s.routers| == |tables[a]| == |s.routers[a].graph|
    requires s.routers[a].graph[a].state == Seen && tables[a][d].nextHop != -1
    ensures Follows(tables, path, d) && |path| > 0 && path[0] == a
    ensures NoRepeats(path) && |path| - 1 <= |s.routers| - 1
    ensures exists cost :: Costs(s.routers[a].graph, dt, path, cost) && IsDistance(s.routers[a].graph, dt, a + 1, d, cost)
  {
    AttainedIsSane(s0, steps, s);
    ConvergedSayTheSame(s, a);
    ReachableMetrics(s, a, dt);
    path := AgreeingRoutersDeliver(s.routers[a].graph, Databases(s), dt, labels, tables, a, d);
  }

  /**
   A flood brings about what that asks for: if no copy is lost and the record is news to all others, then once the network
   is quiet all routers connected to the origin are up to date about it, as long as its record has kept its content.
   */
  lemma FloodMakesUpToDate(s0: System, steps: seq<Step>, s: System, lsa: Node, r: int, n: nat)
    requires Coverage.JustSent(s0, lsa) && Coverage.UndisturbedRun(s0, steps, s, lsa) && Coverage.Quiet(s, lsa)
    requires forall q :: 0 <= q < |s0.routers| && q + 1 != lsa.id ==> Coverage.Willing(s0, q, lsa)
    requires Coverage.ConnectedIn(s0, lsa.id - 1, r, n) && r + 1 != lsa.id && |s.routers| == |s0.routers|
    requires ContentEq(lsa, s.routers[lsa.id - 1].me)
    ensures UpToDateAbout(s, r, lsa.id - 1)
  {
    Coverage.NewsReachesAllConnected(s0, lsa, r, n);
    Coverage.FloodCoverage(s0, steps, s, lsa, r);
  }

  lemma UpToDateSayPresent(s: System, r: int)
    requires Sane(s) && AllUpToDate(s) && 0 <= r < |s.routers|
    ensures SameRecords(Present(s), s.routers[r].graph)
  {
    assert GoodRouter(s, r);
    forall i | 0 <= i < |s.routers| ensures SameRecord(Present(s)[i], s.routers[r].graph[i]) {
      assert UpToDateAbout(s, r, i) && GoodRouter(s, i);
      EntryMetrics(s, r, i);
      ContentFixesLinks(s.routers[r].graph[i], s.routers[i].me, s.routers[i].me);
    }
  }

  lemma UpToDateTables(s: System, dt: bool, labels: seq<Labels>, tables: seq<seq<HopDest>>)
    requires Sane(s) && AllUpToDate(s) && OwnTables(Databases(s), dt, labels, tables)
    ensures AllTables(Present(s), dt, labels, tables)
  {
    forall r | 0 <= r < |s.routers| ensures SameRecords(Present(s), Databases(s)[r]) { UpToDateSayPresent(s, r); }
    AgreeingTables(Present(s), Databases(s), dt, labels, tables);
  }

  lemma PresentIsGood(s: System, dt: bool)
    requires Sane(s)
    ensures PositiveMetrics(Present(s), dt) && Closed(Present(s)) && MetricsAtMost(Present(s), 10000.0)
    ensures forall i :: 0 <= i < |s.routers| ==> Present(s)[i].state == Seen
  {
    var g := Present(s);
    forall i | 0 <= i < |g| ensures g[i].state == Seen && MetricsInRange(g[i].links) { assert GoodRouter(s, i); }
  }

  /**
   When all databases are up to date in content, there is a route from a to d exactly if the network at present connects
   them, and packets follow the tables to d without loops and at the distance over the present network.
   */
  lemma UpToDateNetworkDelivers(s0: System, steps: seq<Step>, s: System, dt: bool, labels: seq<Labels>,
                                tables: seq<seq<HopDest>>, a: int, d: int) returns (path: seq<int>)
    requires Attained(s0, steps, s) && AllUpToDate(s) && OwnTables(Databases(s), dt, labels, tables)
    requires 0 <= a < |s.routers| <= MAX_NODE_NUM && 0 <= d < |s.routers|
    ensures |tables[a]| == |s.routers|
    ensures tables[a][d].nextHop != -1 <==> d != a && Reachable(Present(s), dt, a + 1, d)
    ensures tables[a][d].nextHop != -1 ==>
              && Follows(tables, path, d) && |path| > 0 && path[0] == a
              && NoRepeats(path) && |path| - 1 <= |s.routers| - 1
              && exists cost :: Costs(Present(s), dt, path, cost) && IsDistance(Present(s), dt, a + 1, d, cost)
  {
    AttainedIsSane(s0, steps, s);
    PresentIsGood(s, dt);
    var g := Present(s);
    UpToDateTables(s, dt, labels, tables);
    assert RouterTable(g, dt, labels, tables, a);
    RouteIffReachable(g, dt, a + 1, labels[a], tables[a], d);
    path := [];
    if tables[a][d].nextHop != -1 {
      path := LoopFreeDelivery(g, dt, labels, tables, a, d);
    }
  }
}
