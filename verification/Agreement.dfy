/** Routers whose databases agree in what a search reads: they compute the tables of one and the same graph. */
module Agreement {
  import opened Network
  import opened ShortestPaths
  import opened Routes
  import opened Forwarding

  /** The same to a search, which reads neither time stamps nor the links of a record that is not seen. */
  ghost predicate SameRecord(a: Node, b: Node) {
    a.id == b.id && a.state == b.state && (a.state == Seen ==> a.links == b.links)
  }

  ghost predicate SameRecords(g: seq<Node>, h: seq<Node>) {
    |g| == |h| && forall i :: 0 <= i < |g| ==> SameRecord(g[i], h[i])
  }

  lemma SameLinks(g: seq<Node>, h: seq<Node>, dt: bool, u: int, l: int)
    requires SameRecords(g, h)
    ensures Usable(g, dt, u, l) <==> Usable(h, dt, u, l)
    ensures Usable(g, dt, u, l) ==> Target(g, u, l) == Target(h, u, l) && Cost(g, u, l) == Cost(h, u, l)
  {
    if 0 <= u < |g| { assert SameRecord(g[u], h[u]); }
  }

  lemma SameLabelled(g: seq<Node>, h: seq<Node>, dt: bool, src: int, t: Labels, v: int)
    requires SameRecords(g, h) && Forest(h, dt, src, t) && 0 <= v < |g|
    ensures Labelled(g, dt, src, t, v)
  {
    assert Labelled(h, dt, src, t, v);
    assert SameRecord(g[v], h[v]);
    if t.prev[v] != -1 {
      SameLinks(g, h, dt, t.prev[v] - 1, t.via[v]);
      assert SameRecord(g[src - 1], h[src - 1]);
    }
  }

  lemma SameForest(g: seq<Node>, h: seq<Node>, dt: bool, src: int, t: Labels)
    requires SameRecords(g, h) && Forest(h, dt, src, t)
    ensures Forest(g, dt, src, t)
  {
    forall v | 0 <= v < |g| ensures Labelled(g, dt, src, t, v) { SameLabelled(g, h, dt, src, t, v); }
  }

  lemma SameStates(g: seq<Node>, h: seq<Node>)
    requires SameRecords(g, h)
    ensures forall v :: 0 <= v < |g| ==> g[v].state == h[v].state
  {
    forall v | 0 <= v < |g| ensures g[v].state == h[v].state { assert SameRecord(g[v], h[v]); }
  }

  /** A finished search over one graph is one over the other. */
  lemma SameTree(g: seq<Node>, h: seq<Node>, dt: bool, src: int, t: Labels)
    requires SameRecords(g, h) && ShortestTree(h, dt, src, t)
    ensures ShortestTree(g, dt, src, t)
  {
    SameForest(g, h, dt, src, t);
    SameStates(g, h);
    forall u, l | Usable(g, dt, u, l) && t.rank[u] < t.popped ensures RelaxedLink(g, t, u, l) {
      SameLinks(g, h, dt, u, l);
      assert RelaxedLink(h, t, u, l);
    }
  }

  lemma SameLinkInto(g: seq<Node>, h: seq<Node>, dt: bool, src: int, t: Labels, v: int)
    requires SameRecords(g, h) && Forest(g, dt, src, t) && Forest(h, dt, src, t) && 0 <= v < |g| && t.prev[v] != -1
    ensures LinkInto(g, dt, src, t, v) == LinkInto(h, dt, src, t, v)
  {
    assert Labelled(g, dt, src, t, v) && Labelled(h, dt, src, t, v);
    assert SameRecord(g[t.prev[v] - 1], h[t.prev[v] - 1]);
  }

  lemma {:induction false} SameFirstHop(g: seq<Node>, h: seq<Node>, dt: bool, src: int, t: Labels, v: int)
    requires SameRecords(g, h) && Forest(g, dt, src, t) && Forest(h, dt, src, t) && 0 <= v < |g| && t.prev[v] != -1
    ensures FirstHop(g, dt, src, t, v) == FirstHop(h, dt, src, t, v)
    decreases t.rank[v]
  {
    assert Labelled(g, dt, src, t, v);
    var u := t.prev[v] - 1;
    if t.prev[u] != -1 { SameFirstHop(g, h, dt, src, t, u); }
  }

  lemma {:induction false} SameTraceMetric(g: seq<Node>, h: seq<Node>, dt: bool, src: int, t: Labels, v: int, m: int)
    requires SameRecords(g, h) && Forest(g, dt, src, t) && Forest(h, dt, src, t) && 0 <= v < |g|
    ensures TraceMetric(g, dt, src, t, v, m) == TraceMetric(h, dt, src, t, v, m)
    decreases t.rank[v]
  {
    assert Labelled(g, dt, src, t, v);
    if t.prev[v] != -1 {
      SameLinkInto(g, h, dt, src, t, v);
      SameTraceMetric(g, h, dt, src, t, t.prev[v] - 1, SafeAdd(m, LinkInto(g, dt, src, t, v).metric));
    }
  }

  lemma SameEntry(g: seq<Node>, h: seq<Node>, dt: bool, src: int, t: Labels, v: int)
    requires SameRecords(g, h) && Forest(g, dt, src, t) && Forest(h, dt, src, t) && 0 <= v < |g|
    ensures TableEntry(g, dt, src, t, v) == TableEntry(h, dt, src, t, v)
  {
    SameStates(g, h);
    if t.prev[v] != -1 {
      SameLinkInto(g, h, dt, src, t, v);
      SameFirstHop(g, h, dt, src, t, v);
      SameLinkInto(g, h, dt, src, t, FirstHop(g, dt, src, t, v));
      SameTraceMetric(g, h, dt, src, t, v, 1);
    }
  }

  /** A table computed over one graph is the table computed over the other. */
  lemma SameTable(g: seq<Node>, h: seq<Node>, dt: bool, src: int, t: Labels, table: seq<HopDest>)
    requires SameRecords(g, h) && IsTable(h, dt, src, t, table)
    ensures IsTable(g, dt, src, t, table)
  {
    SameTree(g, h, dt, src, t);
    forall v {:trigger TableEntry(g, dt, src, t, v)} | 0 <= v < |g| ensures table[v] == TableEntry(g, dt, src, t, v) {
      SameEntry(g, h, dt, src, t, v);
      assert table[v] == TableEntry(h, dt, src, t, v);
    }
  }

  /** Router r, if it takes part, computed its table over its own database. */
  ghost predicate OwnTable(gs: seq<seq<Node>>, dt: bool, labels: seq<Labels>, tables: seq<seq<HopDest>>, r: int)
    requires |labels| == |tables| == |gs| && 0 <= r < |gs|
  {
    r < |gs[r]| && gs[r][r].state == Seen ==> IsTable(gs[r], dt, r + 1, labels[r], tables[r])
  }

  ghost predicate OwnTables(gs: seq<seq<Node>>, dt: bool, labels: seq<Labels>, tables: seq<seq<HopDest>>) {
    && |labels| == |tables| == |gs|
    && forall r {:trigger OwnTable(gs, dt, labels, tables, r)} :: 0 <= r < |gs| ==> OwnTable(gs, dt, labels, tables, r)
  }

  /** If all databases say the same as g, the routers' tables are tables over g. */
  lemma AgreeingTables(g: seq<Node>, gs: seq<seq<Node>>, dt: bool, labels: seq<Labels>, tables: seq<seq<HopDest>>)
    requires |gs| == |g| && (forall r :: 0 <= r < |g| ==> SameRecords(g, gs[r]))
    requires OwnTables(gs, dt, labels, tables)
    ensures AllTables(g, dt, labels, tables)
  {
    forall r {:trigger RouterTable(g, dt, labels, tables, r)} | 0 <= r < |g| ensures RouterTable(g, dt, labels, tables, r) {
      assert OwnTable(gs, dt, labels, tables, r);
      SameStates(g, gs[r]);
      if g[r].state == Seen { SameTable(g, gs[r], dt, r + 1, labels[r], tables[r]); }
    }
  }

  /** Loop-free delivery when every router computes over its own database and the databases agree. */
  lemma AgreeingRoutersDeliver(g: seq<Node>, gs: seq<seq<Node>>, dt: bool, labels: seq<Labels>,
                               tables: seq<seq<HopDest>>, s: int, d: int) returns (path: seq<int>)
    requires |gs| == |g| && (forall r :: 0 <= r < |g| ==> SameRecords(g, gs[r]))
    requires OwnTables(gs, dt, labels, tables) && PositiveMetrics(g, dt)
    requires 0 <= s < |g| && 0 <= d < |g| && g[s].state == Seen && |tables[s]| == |g|
    requires tables[s][d].nextHop != -1
    ensures Follows(tables, path, d) && |path| > 0 && path[0] == s
    ensures NoRepeats(path) && |path| - 1 <= |g| - 1
    ensures exists cost :: Costs(g, dt, path, cost) && IsDistance(g, dt, s + 1, d, cost)
  {
    AgreeingTables(g, gs, dt, labels, tables);
    path := LoopFreeDelivery(g, dt, labels, tables, s, d);
  }
}
