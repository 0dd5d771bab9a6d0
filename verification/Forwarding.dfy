/** Forwarding hop by hop, each router using the table it computed for itself over the same graph. */
module Forwarding {
  import opened Network
  import opened ShortestPaths
  import opened Routes

  /** Router r, if it takes part, holds a table it computed with labels labels[r]. */
  ghost predicate RouterTable(g: seq<Node>, dt: bool, labels: seq<Labels>, tables: seq<seq<HopDest>>, r: int)
    requires |labels| == |tables| == |g| && 0 <= r < |g|
  {
    g[r].state == Seen ==> IsTable(g, dt, r + 1, labels[r], tables[r])
  }

  ghost predicate AllTables(g: seq<Node>, dt: bool, labels: seq<Labels>, tables: seq<seq<HopDest>>) {
    && |labels| == |tables| == |g|
    && forall r {:trigger RouterTable(g, dt, labels, tables, r)} :: 0 <= r < |g| ==> RouterTable(g, dt, labels, tables, r)
  }

  ghost predicate PositiveMetrics(g: seq<Node>, dt: bool) {
    forall u, l :: Usable(g, dt, u, l) ==> Cost(g, u, l) > 0.0
  }

  /** Router x hands packets for d to y. */
  ghost predicate Sends(tables: seq<seq<HopDest>>, x: int, d: int, y: int) {
    0 <= x < |tables| && 0 <= d < |tables[x]| && tables[x][d].nextHop == y + 1
  }

  /** `path` goes where the tables send a packet for d, one router at a time, until d. */
  ghost predicate Follows(tables: seq<seq<HopDest>>, path: seq<int>, d: int) {
    if |path| <= 1 then path == [d]
    else path[0] != d && Sends(tables, path[0], d, path[1]) && Follows(tables, path[1..], d)
  }

  ghost predicate NoRepeats(path: seq<int>) {
    forall i, j :: 0 <= i < j < |path| ==> path[i] != path[j]
  }

  /** `cost` is the sum of the metrics of links joining the routers of `path`. */
  ghost predicate Costs(g: seq<Node>, dt: bool, path: seq<int>, cost: real)
    requires |path| > 0
  {
    if |path| == 1 then cost == 0.0
    else exists l :: Usable(g, dt, path[0], l) && Target(g, path[0], l) == path[1] &&
                     Costs(g, dt, path[1..], cost - Cost(g, path[0], l))
  }

  /** The routers known by their own record that are strictly closer to d than r is. */
  ghost function Closer(g: seq<Node>, labels: seq<Labels>, r: int, d: int): set<int>
    requires |labels| == |g| && 0 <= r < |g| && 0 <= d < |g| && |labels[r].dist| == |g|
  {
    set x | 0 <= x < |g| && x != d && g[x].state == Seen && |labels[x].dist| == |g| &&
            labels[x].dist[d] < labels[r].dist[d]
  }

  /** Put one link in front of a walk from the node that the link leads to. */
  ghost function Prepend(r: int, l: int, w: Walk): Walk {
    match w
    case Origin => Step(Origin, r, l)
    case Step(p, u, k) => Step(Prepend(r, l, p), u, k)
  }

  lemma {:induction false} PrependWeight(g: seq<Node>, dt: bool, r: int, l: int, w: Walk, h: int, v: int)
    requires Usable(g, dt, r, l) && Target(g, r, l) == h && IsWalk(g, dt, h + 1, w, v)
    ensures IsWalk(g, dt, r + 1, Prepend(r, l, w), v)
    ensures Weight(g, dt, r + 1, Prepend(r, l, w), v) == Cost(g, r, l) + Weight(g, dt, h + 1, w, v)
  {
    match w
    case Origin =>
      assert IsWalk(g, dt, r + 1, Origin, r);
    case Step(p, u, k) =>
      PrependWeight(g, dt, r, l, p, h, u);
  }

  /** Past the first hop, the way to v is a walk from that hop. */
  lemma {:induction false} WalkFromFirstHop(g: seq<Node>, dt: bool, src: int, t: Labels, v: int, h: int)
      returns (w: Walk)
    requires Forest(g, dt, src, t) && 0 <= v < |g| && t.prev[v] != -1
    requires h == FirstHop(g, dt, src, t, v) != v
    ensures IsWalk(g, dt, h + 1, w, v) && g[h].state == Seen
    ensures Weight(g, dt, h + 1, w, v) == t.dist[v] - t.dist[h]
    decreases t.rank[v]
  {
    assert Labelled(g, dt, src, t, v);
    var u := t.prev[v] - 1;
    assert Labelled(g, dt, src, t, u);
    if FirstHop(g, dt, src, t, u) == u {
      assert IsWalk(g, dt, h + 1, Origin, h);
      w := Step(Origin, u, t.via[v]);
    } else {
      var p := WalkFromFirstHop(g, dt, src, t, u, h);
      w := Step(p, u, t.via[v]);
    }
  }

  /** What r's labels say about its first hop h towards d: the link to it, and the rest of the way. */
  lemma FirstHopSplits(g: seq<Node>, dt: bool, r: int, t: Labels, d: int, h: int) returns (w: Walk)
    requires Forest(g, dt, r + 1, t) && 0 <= r < |g| && 0 <= d < |g| && t.prev[d] != -1
    requires h == FirstHop(g, dt, r + 1, t, d)
    ensures Usable(g, dt, r, t.via[h]) && Target(g, r, t.via[h]) == h
    ensures h == d ==> t.dist[d] == Cost(g, r, t.via[h])
    ensures h != d ==> g[h].state == Seen && IsWalk(g, dt, h + 1, w, d) &&
                       Weight(g, dt, h + 1, w, d) == t.dist[d] - Cost(g, r, t.via[h])
    ensures 0.0 <= Cost(g, r, t.via[h])
  {
    assert Labelled(g, dt, r + 1, t, h) && Labelled(g, dt, r + 1, t, r);
    if h != d {
      w := WalkFromFirstHop(g, dt, r + 1, t, d, h);
    } else {
      w := Origin;
    }
  }

  /** The distances of two neighbours on a shortest way to d differ by exactly the metric of the link between them. */
  lemma HopDistance(g: seq<Node>, dt: bool, r: int, l: int, h: int, d: int, dr: real, dh: real, w: Walk)
    requires Usable(g, dt, r, l) && Target(g, r, l) == h
    requires IsDistance(g, dt, r + 1, d, dr) && IsDistance(g, dt, h + 1, d, dh)
    requires IsWalk(g, dt, h + 1, w, d) && Weight(g, dt, h + 1, w, d) == dr - Cost(g, r, l) < INFINITE_DISTANCE
    ensures dh == dr - Cost(g, r, l)
  {
    assert dh <= Weight(g, dt, h + 1, w, d);
    var w' :| IsWalk(g, dt, h + 1, w', d) && Weight(g, dt, h + 1, w', d) == dh;
    PrependWeight(g, dt, r, l, w', h, d);
    assert dr <= Weight(g, dt, r + 1, Prepend(r, l, w'), d);
  }

  lemma OwnHop(g: seq<Node>, dt: bool, labels: seq<Labels>, tables: seq<seq<HopDest>>, r: int, d: int)
      returns (h: int, l: int, w: Walk)
    requires AllTables(g, dt, labels, tables)
    requires 0 <= r < |g| && 0 <= d < |g| && HasRoute(g, labels, r, d)
    ensures Sends(tables, r, d, h) && Usable(g, dt, r, l) && Target(g, r, l) == h && 0 <= h < |g|
    ensures h == d ==> labels[r].dist[d] == Cost(g, r, l)
    ensures h != d ==> g[h].state == Seen && IsWalk(g, dt, h + 1, w, d) &&
                       Weight(g, dt, h + 1, w, d) == labels[r].dist[d] - Cost(g, r, l) < INFINITE_DISTANCE
  {
    assert RouterTable(g, dt, labels, tables, r);
    assert Labelled(g, dt, r + 1, labels[r], d);
    assert tables[r][d] == TableEntry(g, dt, r + 1, labels[r], d);
    h := FirstHop(g, dt, r + 1, labels[r], d);
    l := labels[r].via[h];
    w := FirstHopSplits(g, dt, r, labels[r], d, h);
  }

  lemma TableDistance(g: seq<Node>, dt: bool, labels: seq<Labels>, tables: seq<seq<HopDest>>, r: int, d: int)
    requires AllTables(g, dt, labels, tables)
    requires 0 <= r < |g| && 0 <= d < |g| && g[r].state == Seen
    ensures |labels[r].dist| == |g| && IsDistance(g, dt, r + 1, d, labels[r].dist[d])
  {
    assert RouterTable(g, dt, labels, tables, r);
    LabelsAreDistances(g, dt, r + 1, labels[r], d);
  }

  /** The first hop of r towards d is d itself, or a router whose own distance is less by exactly the link's metric. */
  lemma OneHop(g: seq<Node>, dt: bool, labels: seq<Labels>, tables: seq<seq<HopDest>>, r: int, d: int)
      returns (h: int, l: int)
    requires AllTables(g, dt, labels, tables)
    requires 0 <= r < |g| && 0 <= d < |g| && HasRoute(g, labels, r, d)
    ensures Sends(tables, r, d, h)
    ensures Usable(g, dt, r, l) && Target(g, r, l) == h && 0 <= h < |g|
    ensures h == d ==> labels[r].dist[d] == Cost(g, r, l)
    ensures h != d ==> g[h].state == Seen && |labels[h].dist| == |g| &&
                       labels[h].dist[d] == labels[r].dist[d] - Cost(g, r, l)
  {
    var w;
    h, l, w := OwnHop(g, dt, labels, tables, r, d);
    if h != d {
      TableDistance(g, dt, labels, tables, r, d);
      TableDistance(g, dt, labels, tables, h, d);
      HopDistance(g, dt, r, l, h, d, labels[r].dist[d], labels[h].dist[d], w);
    }
  }

  /** r is a router that has labelled another destination d below the sentinel. */
  ghost predicate HasRoute(g: seq<Node>, labels: seq<Labels>, r: int, d: int)
    requires |labels| == |g| && 0 <= r < |g| && 0 <= d < |g|
  {
    && g[r].state == Seen && r != d && g[d].state != Unseen
    && |labels[r].dist| == |g| && labels[r].dist[d] < INFINITE_DISTANCE
  }

  /** The path that the tables prescribe, with the routers still ahead as measure. */
  lemma {:induction false} Deliver(g: seq<Node>, dt: bool, labels: seq<Labels>, tables: seq<seq<HopDest>>, r: int,
            d: int)
      returns (path: seq<int>)
    requires AllTables(g, dt, labels, tables) && PositiveMetrics(g, dt)
    requires 0 <= r < |g| && 0 <= d < |g| && HasRoute(g, labels, r, d)
    ensures Follows(tables, path, d) && |path| > 0 && path[0] == r && NoRepeats(path)
    ensures forall i :: 1 <= i < |path| ==> path[i] == d || path[i] in Closer(g, labels, r, d)
    ensures Costs(g, dt, path, labels[r].dist[d])
    decreases Closer(g, labels, r, d)
  {
    var h, l := OneHop(g, dt, labels, tables, r, d);
    assert Cost(g, r, l) > 0.0;
    if h == d {
      path := [r, d];
      assert path[1..] == [d];
    } else {
      CloserShrinks(g, labels, r, h, d);
      var rest := Deliver(g, dt, labels, tables, h, d);
      path := [r] + rest;
      assert path[1..] == rest;
      assert r !in Closer(g, labels, r, d);
    }
  }

  lemma CloserShrinks(g: seq<Node>, labels: seq<Labels>, r: int, h: int, d: int)
    requires |labels| == |g| && 0 <= r < |g| && 0 <= h < |g| && 0 <= d < |g|
    requires h != d && g[h].state == Seen
    requires |labels[r].dist| == |labels[h].dist| == |g| && labels[h].dist[d] < labels[r].dist[d]
    ensures Closer(g, labels, h, d) < Closer(g, labels, r, d) && h in Closer(g, labels, r, d)
  {
    assert h in Closer(g, labels, r, d) && h !in Closer(g, labels, h, d);
  }

  lemma {:induction false} ShortWithoutRepeats(path: seq<int>, n: nat)
    requires NoRepeats(path) && forall i :: 0 <= i < |path| ==> 0 <= path[i] < n
    ensures |path| <= n
  {
    var s := set i | 0 <= i < |path| :: path[i];
    CardOfDistinct(path);
    RangeCard(n, s);
  }

  lemma {:induction false} CardOfDistinct(path: seq<int>)
    requires NoRepeats(path)
    ensures |(set i | 0 <= i < |path| :: path[i])| == |path|
  {
    if |path| > 0 {
      var init := path[..|path| - 1];
      CardOfDistinct(init);
      assert (set i | 0 <= i < |path| :: path[i]) == (set i | 0 <= i < |init| :: init[i]) + {path[|path| - 1]};
    }
  }

  lemma EmittedMeansRoute(g: seq<Node>, dt: bool, labels: seq<Labels>, tables: seq<seq<HopDest>>, s: int, d: int)
    requires AllTables(g, dt, labels, tables)
    requires 0 <= s < |g| && 0 <= d < |g| && g[s].state == Seen && |tables[s]| == |g|
    requires tables[s][d].nextHop != -1
    ensures HasRoute(g, labels, s, d) && IsDistance(g, dt, s + 1, d, labels[s].dist[d])
  {
    assert RouterTable(g, dt, labels, tables, s);
    assert tables[s][d] == TableEntry(g, dt, s + 1, labels[s], d);
    assert Labelled(g, dt, s + 1, labels[s], d);
    LabelsAreDistances(g, dt, s + 1, labels[s], d);
  }

  /**
   Loop-free delivery: from any router with a route, following the routers' tables reaches the destination
   without visiting a router twice, in at most N - 1 hops, at exactly the cost the first router computed.
   */
  lemma LoopFreeDelivery(g: seq<Node>, dt: bool, labels: seq<Labels>, tables: seq<seq<HopDest>>, s: int, d: int)
      returns (path: seq<int>)
    requires AllTables(g, dt, labels, tables) && PositiveMetrics(g, dt)
    requires 0 <= s < |g| && 0 <= d < |g| && g[s].state == Seen && |tables[s]| == |g|
    requires tables[s][d].nextHop != -1
    ensures Follows(tables, path, d) && |path| > 0 && path[0] == s
    ensures NoRepeats(path) && |path| - 1 <= |g| - 1
    ensures exists cost :: Costs(g, dt, path, cost) && IsDistance(g, dt, s + 1, d, cost)
  {
    EmittedMeansRoute(g, dt, labels, tables, s, d);
    path := Deliver(g, dt, labels, tables, s, d);
    assert Costs(g, dt, path, labels[s].dist[d]);
    ShortWithoutRepeats(path, |g|);
  }

  /** The tables leave no choice: from one router to one destination they prescribe a single path. */
  lemma {:induction false} ForwardingIsDeterministic(tables: seq<seq<HopDest>>, p: seq<int>, q: seq<int>, d: int)
    requires Follows(tables, p, d) && Follows(tables, q, d) && |p| > 0 && |q| > 0 && p[0] == q[0]
    ensures p == q
  {
    if |p| > 1 && |q| > 1 { ForwardingIsDeterministic(tables, p[1..], q[1..], d); }
  }

  // ---------- DTLSR against LSR ----------

  /** The graphs differ at most in the statuses of links. */
  ghost predicate SameButStatuses(g: seq<Node>, h: seq<Node>) {
    && |g| == |h|
    && forall u :: 0 <= u < |g| ==>
         && g[u].state == h[u].state && |g[u].links| == |h[u].links|
         && forall l :: 0 <= l < |g[u].links| ==>
              && g[u].links[l].neighbourId == h[u].links[l].neighbourId
              && g[u].links[l].metric == h[u].links[l].metric
  }

  /** DTLSR routes over links that are down as over any other: statuses make no difference to what is reached or how far it is. */
  lemma {:induction false} StatusesDoNotMatter(g: seq<Node>, h: seq<Node>, src: int, w: Walk, v: int)
    requires SameButStatuses(g, h) && IsWalk(g, true, src, w, v)
    ensures IsWalk(h, true, src, w, v) && Weight(h, true, src, w, v) == Weight(g, true, src, w, v)
  {
    if w.Step? { StatusesDoNotMatter(g, h, src, w.prefix, w.from); }
  }

  /** LSR routes over links that are up only. */
  lemma {:induction false} LsrWalksAreUp(g: seq<Node>, src: int, w: Walk, v: int)
    requires IsWalk(g, false, src, w, v)
    ensures AllUp(g, w)
  {
    if w.Step? { LsrWalksAreUp(g, src, w.prefix, w.from); }
  }

  /** The same topology and link statuses: LSR costs every link 1, DTLSR costs the links that are up 1. */
  ghost predicate SameTopology(lsr: seq<Node>, dtlsr: seq<Node>) {
    && |lsr| == |dtlsr|
    && forall u :: 0 <= u < |lsr| ==>
         && lsr[u].state == dtlsr[u].state && |lsr[u].links| == |dtlsr[u].links|
         && forall l :: 0 <= l < |lsr[u].links| ==>
              && lsr[u].links[l].neighbourId == dtlsr[u].links[l].neighbourId
              && lsr[u].links[l].status == dtlsr[u].links[l].status
              && lsr[u].links[l].metric == 1.0
              && (dtlsr[u].links[l].status == Up ==> dtlsr[u].links[l].metric == 1.0)
  }

  /** Every link of the walk is up. */
  ghost predicate AllUp(g: seq<Node>, w: Walk) {
    match w
    case Origin => true
    case Step(p, u, l) =>
      AllUp(g, p) && 0 <= u < |g| && 0 <= l < |g[u].links| && g[u].links[l].status == Up
  }

  lemma {:induction false} LsrWalkInDtlsr(lsr: seq<Node>, dtlsr: seq<Node>, src: int, w: Walk, v: int)
    requires SameTopology(lsr, dtlsr) && IsWalk(lsr, false, src, w, v)
    ensures IsWalk(dtlsr, true, src, w, v)
    ensures Weight(dtlsr, true, src, w, v) == Weight(lsr, false, src, w, v)
    ensures AllUp(dtlsr, w)
  {
    match w
    case Origin =>
    case Step(p, u, l) => LsrWalkInDtlsr(lsr, dtlsr, src, p, u);
  }

  /** DTLSR reaches whatever LSR reaches, at no greater distance; LSR's own least-weight walk uses links that are up only. */
  lemma DelayTolerantDominates(lsr: seq<Node>, dtlsr: seq<Node>, src: int, tl: Labels, td: Labels, v: int)
      returns (w: Walk)
    requires SameTopology(lsr, dtlsr) && 0 <= v < |lsr|
    requires ShortestTree(lsr, false, src, tl) && ShortestTree(dtlsr, true, src, td)
    ensures td.dist[v] <= tl.dist[v]
    ensures tl.prev[v] != -1 ==> td.prev[v] != -1
    ensures tl.dist[v] < INFINITE_DISTANCE ==>
              IsWalk(lsr, false, src, w, v) && Weight(lsr, false, src, w, v) == tl.dist[v] && AllUp(dtlsr, w)
  {
    assert Labelled(lsr, false, src, tl, v) && Labelled(dtlsr, true, src, td, v);
    w := Origin;
    if tl.dist[v] < INFINITE_DISTANCE {
      w := LabelsAreWeights(lsr, false, src, tl, v);
      LsrWalkInDtlsr(lsr, dtlsr, src, w, v);
      LabelsAreLowerBounds(dtlsr, true, src, td, w, v);
    }
  }
}
