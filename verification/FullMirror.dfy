/** Computed routes that overflow the mirror: seven destinations whose links all go down, so that every metric changes. */
module FullMirror {
  import opened Network
  import opened ShortestPaths
  import opened Routes
  import opened RouteControl

  function Address(id: int, host: Octet): Ipv4
    requires 0 <= id < 256
  {
    Ipv4(10, 0, id, host)
  }

  function LinkTo(id: int, metric: real): Link
    requires 0 <= id < 256
  {
    Link(id, Address(id, 1), Address(id, 2), if metric == 1.0 then Up else Down, metric)
  }

  /** Router 1 has links to routers 2 to 7. */
  function OwnLinks(metric: real): seq<Link> {
    seq(6, i requires 0 <= i < 6 => LinkTo(i + 2, metric))
  }

  /** Router 1's database: it has router 2's record, which shows a link to router 8, and has heard of the others. */
  function Graph(metric: real): seq<Node> {
    seq(MAX_NODE_NUM, i requires 0 <= i < MAX_NODE_NUM =>
      if i == 0 then Node(1, Seen, OwnLinks(metric), 1)
      else if i == 1 then Node(2, Seen, [LinkTo(1, metric), LinkTo(8, metric)], 1)
      else Node(i + 1, if i <= 7 then Opaque else Unseen, [], 0))
  }

  /** The labels that a search over this graph ends with. */
  ghost function Tree(metric: real): Labels {
    Labels(seq(MAX_NODE_NUM, i =>
             if i == 0 then 0.0 else if i <= 6 then metric else if i == 7 then metric + metric else INFINITE_DISTANCE),
           seq(MAX_NODE_NUM, i => if i == 0 then -1 else if i <= 6 then 1 else if i == 7 then 2 else -1),
           seq(MAX_NODE_NUM, i => if 1 <= i <= 6 then i - 1 else 1),
           seq(MAX_NODE_NUM, i => if i <= 1 then i else MAX_NODE_NUM),
           2)
  }

  /** The links that routes go over. */
  lemma GraphLinks(metric: real, u: int, l: int)
    requires Usable(Graph(metric), true, u, l)
    ensures u == 0 || u == 1
    ensures u == 0 ==> 0 <= l < 6 && Graph(metric)[u].links[l] == LinkTo(l + 2, metric)
    ensures u == 1 ==> Graph(metric)[u].links[l] == LinkTo(if l == 0 then 1 else 8, metric)
  {
    assert Graph(metric)[0].links == OwnLinks(metric);
  }

  lemma TreeIsForest(metric: real)
    requires 1.0 <= metric <= 10000.0
    ensures Forest(Graph(metric), true, 1, Tree(metric))
  {
    var g, t := Graph(metric), Tree(metric);
    assert g[0].links == OwnLinks(metric);
    forall v | 0 <= v < |g| ensures Labelled(g, true, 1, t, v) {
      if 1 <= v <= 7 {
        assert Usable(g, true, t.prev[v] - 1, t.via[v]);
        GraphLinks(metric, t.prev[v] - 1, t.via[v]);
      }
    }
  }

  lemma TreeIsRelaxed(metric: real)
    requires 1.0 <= metric <= 10000.0
    ensures Relaxed(Graph(metric), true, Tree(metric), 2)
  {
    var g, t := Graph(metric), Tree(metric);
    forall u, l | Usable(g, true, u, l) ensures RelaxedLink(g, t, u, l) {
      GraphLinks(metric, u, l);
    }
  }

  lemma TreeIsShortest(metric: real)
    requires 1.0 <= metric <= 10000.0
    ensures ShortestTree(Graph(metric), true, 1, Tree(metric))
  {
    TreeIsForest(metric);
    TreeIsRelaxed(metric);
    assert PoppedSet(Tree(metric)) == {0, 1};
  }

  ghost function Table(metric: real): seq<HopDest>
    requires 1.0 <= metric <= 10000.0
  {
    TreeIsForest(metric);
    seq(MAX_NODE_NUM, v requires 0 <= v < MAX_NODE_NUM => TableEntry(Graph(metric), true, 1, Tree(metric), v))
  }

  lemma TableIsComputed(metric: real)
    requires 1.0 <= metric <= 10000.0
    ensures IsTable(Graph(metric), true, 1, Tree(metric), Table(metric))
  {
    TreeIsShortest(metric);
  }

  lemma TreeLink(metric: real, v: int)
    requires 1.0 <= metric <= 10000.0 && 1 <= v <= 7
    ensures Forest(Graph(metric), true, 1, Tree(metric)) && Tree(metric).prev[v] != -1
    ensures LinkInto(Graph(metric), true, 1, Tree(metric), v) == LinkTo(v + 1, metric)
  {
    TreeIsForest(metric);
    var g, t := Graph(metric), Tree(metric);
    assert Labelled(g, true, 1, t, v);
    GraphLinks(metric, t.prev[v] - 1, t.via[v]);
  }

  lemma TreeTrace(metric: nat, v: int)
    requires 1 <= metric <= 10000 && 1 <= v <= 7
    ensures Forest(Graph(metric as real), true, 1, Tree(metric as real)) && Tree(metric as real).prev[v] != -1
    ensures FirstHop(Graph(metric as real), true, 1, Tree(metric as real), v) == if v == 7 then 1 else v
    ensures HopMetric(Graph(metric as real), true, 1, Tree(metric as real), v) == 1 + (if v == 7 then 2 else 1) * metric
  {
    var m := metric as real;
    var g, t := Graph(m), Tree(m);
    TreeIsForest(m);
    TreeLink(m, v);
    SafeAddFits(1, m);
    assert SafeAdd(1, m) == 1 + metric;
    assert HopMetric(g, true, 1, t, v) == TraceMetric(g, true, 1, t, t.prev[v] - 1, 1 + metric);
    if v == 7 {
      TreeLink(m, 1);
      SafeAddFits(1 + metric, m);
      assert FirstHop(g, true, 1, t, 1) == 1;
      assert TraceMetric(g, true, 1, t, 1, 1 + metric) == TraceMetric(g, true, 1, t, 0, 1 + 2 * metric);
    }
  }

  lemma Entries(metric: nat, v: int)
    requires 1 <= metric <= 10000 && 1 <= v <= 7
    ensures Table(metric as real)[v] == HopDest(if v == 7 then 2 else v + 1, Address(v + 1, 1),
                                                1 + (if v == 7 then 2 else 1) * metric, if metric == 1 then Up else Down)
  {
    TreeIsForest(metric as real);
    TreeTrace(metric, v);
    TreeLink(metric as real, v);
    TreeLink(metric as real, if v == 7 then 1 else v);
  }

  /** The routes that router 1 wants when all links have this metric; 1 means that they are up. */
  ghost function WantedAt(metric: nat): set<Route>
    requires 1 <= metric <= 10000
  {
    Wanted(OwnLinks(metric as real), Table(metric as real))
  }

  lemma TableIsOverNeighbours(metric: nat)
    requires 1 <= metric <= 10000
    ensures GoodLinks(OwnLinks(metric as real), MAX_NODE_NUM)
    ensures OverNeighbours(OwnLinks(metric as real), Table(metric as real))
  {
    var links, table := OwnLinks(metric as real), Table(metric as real);
    TableIsComputed(metric as real);
    forall v | 0 <= v < |table| && table[v].nextHop != -1
      ensures exists k :: 0 <= k < |links| && links[k].neighbourId == table[v].nextHop
    {
      assert table[v] == TableEntry(Graph(metric as real), true, 1, Tree(metric as real), v);
      if 1 <= v <= 7 {
        Entries(metric, v);
        assert links[table[v].nextHop - 2].neighbourId == table[v].nextHop;
      }
    }
  }

  /** The route that the table asks for towards router v + 1. */
  lemma WantedRoute(metric: nat, v: int) returns (r: Route)
    requires 1 <= metric <= 10000 && 1 <= v <= 7
    ensures r in WantedAt(metric)
    ensures r.dst == Address(v + 1, 0) && (r.metric == 1 + metric || r.metric == 1 + 2 * metric)
  {
    var links, table := OwnLinks(metric as real), Table(metric as real);
    TableIsOverNeighbours(metric);
    Entries(metric, v);
    r := WantedIsComplete(links, MAX_NODE_NUM, table, v, table[v].nextHop - 2);
    var i, k := WantedIsVia(links, MAX_NODE_NUM, table, r);
    if 1 <= i <= 7 { Entries(metric, i); }
  }

  /** As many routes as wanted, all different. */
  lemma {:induction false} WantedRoutes(metric: nat, n: nat) returns (rs: seq<Route>)
    requires 1 <= metric <= 10000 && n <= 7
    ensures |rs| == n && forall i :: 0 <= i < n ==>
              && rs[i] in WantedAt(metric)
              && rs[i].dst == Address(i + 2, 0) && (rs[i].metric == 1 + metric || rs[i].metric == 1 + 2 * metric)
  {
    rs := [];
    if n > 0 {
      rs := WantedRoutes(metric, n - 1);
      var r := WantedRoute(metric, n);
      rs := rs + [r];
    }
  }

  lemma {:induction false} DistinctFit<T>(s: seq<T>, all: set<T>)
    requires forall i :: 0 <= i < |s| ==> s[i] in all
    requires forall i, j :: 0 <= i < j < |s| ==> s[i] != s[j]
    ensures |s| <= |all|
  {
    if s != [] { DistinctFit(s[..|s| - 1], all - {s[|s| - 1]}); }
  }

  lemma BothDoNotFit(us: seq<Route>, ds: seq<Route>, up: set<Route>, down: set<Route>)
    requires |us| == |ds| == 7
    requires forall i :: 0 <= i < 7 ==> us[i] in up && us[i].dst == Address(i + 2, 0) && 2 <= us[i].metric <= 3
    requires forall i :: 0 <= i < 7 ==> ds[i] in down && ds[i].dst == Address(i + 2, 0) && 11 <= ds[i].metric <= 21
    ensures |up + down| >= 14
  {
    DistinctFit(us + ds, up + down);
  }

  /**
   In the code's own sizes: after the table for links that are up has been installed, the table for the same links gone
   down overflows the mirror's slots, and leaves a route in the kernel that the mirror does not remember.
   */
  lemma LinksGoDown(up: set<Route>, down: set<Route>, m1: set<Route>, k1: set<Route>) returns (r: Route)
    requires up == WantedAt(1) && down == WantedAt(10) && Updated(up, up, down, MAX_NODE_NUM, m1, k1)
    ensures Forgotten(r, down, m1, k1)
  {
    var us := WantedRoutes(1, 7);
    var ds := WantedRoutes(10, 7);
    BothDoNotFit(us, ds, up, down);
    OverflowLeaks(MAX_NODE_NUM, down, up, m1, k1);
    r :| Forgotten(r, down, m1, k1);
  }
}
