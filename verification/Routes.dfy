/** Reading next hops, destination addresses and hop metrics off the labels of a finished search. */
module Routes {
  import opened Network
  import opened ShortestPaths

  /** The link from the predecessor of v to v. */
  ghost function LinkInto(g: seq<Node>, dt: bool, src: int, t: Labels, v: int): Link
    requires Forest(g, dt, src, t) && 0 <= v < |g| && t.prev[v] != -1
  {
    assert Labelled(g, dt, src, t, v);
    g[t.prev[v] - 1].links[t.via[v]]
  }

  /** The first node after the source on the way to v. */
  ghost function FirstHop(g: seq<Node>, dt: bool, src: int, t: Labels, v: int): (h: int)
    requires Forest(g, dt, src, t) && 0 <= v < |g| && t.prev[v] != -1
    ensures 0 <= h < |g| && t.prev[h] == src && 1 <= src <= |g|
    decreases t.rank[v]
  {
    assert Labelled(g, dt, src, t, v);
    var u := t.prev[v] - 1;
    assert Labelled(g, dt, src, t, u);
    if t.prev[u] == -1 then v else FirstHop(g, dt, src, t, u)
  }

  ghost function Depth(g: seq<Node>, dt: bool, src: int, t: Labels, v: int): nat
    requires Forest(g, dt, src, t) && 0 <= v < |g|
    decreases t.rank[v]
  {
    assert Labelled(g, dt, src, t, v);
    if t.prev[v] == -1 then 0 else 1 + Depth(g, dt, src, t, t.prev[v] - 1)
  }

  // ---------- Hop metrics ----------

  /** Conversion of an integer to C's 16-bit `short`. */
  function ToShort(x: int): int { (x + 32768) % 65536 - 32768 }

  /** `s_d_safe_add` for d >= 0; its UINT16_MAX results leave through a `short`, so as -1. */
  function SafeAdd(s: int, d: real): int {
    if d >= 65535.0 || s >= 65535 then ToShort(65535)
    else
      var res := ToShort(ToShort(d.Floor) + s);
      if res < s then ToShort(65535) else res
  }

  lemma SafeAddFits(s: int, d: real)
    requires -32768 <= s <= 32767
    ensures -32768 <= SafeAdd(s, d) <= 32767
    ensures 0 <= s && 0.0 <= d && s + d.Floor <= 32767 ==> SafeAdd(s, d) == s + d.Floor
  {
  }

  /**
   An addition that does not fit yields -1, whatever the metric; with the metrics that links have the trace counts on
   from there.
   */
  lemma SafeAddOverflows(s: int, d: real)
    requires -1 <= s <= 32767 && 0.0 <= d
    requires 0 <= s || d <= 10000.0
    ensures SafeAdd(s, d) == if s + d.Floor <= 32767 then s + d.Floor else -1
  {
  }

  /** The metric carried back from v to the source, starting from m at v. */
  ghost function TraceMetric(g: seq<Node>, dt: bool, src: int, t: Labels, v: int, m: int): int
    requires Forest(g, dt, src, t) && 0 <= v < |g|
    decreases t.rank[v]
  {
    assert Labelled(g, dt, src, t, v);
    if t.prev[v] == -1 then m
    else TraceMetric(g, dt, src, t, t.prev[v] - 1, SafeAdd(m, LinkInto(g, dt, src, t, v).metric))
  }

  /** The truncated metrics of the links on the way to v, added without overflow. */
  ghost function TruncatedSum(g: seq<Node>, dt: bool, src: int, t: Labels, v: int): nat
    requires Forest(g, dt, src, t) && 0 <= v < |g|
    decreases t.rank[v]
  {
    assert Labelled(g, dt, src, t, v);
    if t.prev[v] == -1 then 0
    else TruncatedSum(g, dt, src, t, t.prev[v] - 1) + LinkInto(g, dt, src, t, v).metric.Floor
  }

  lemma {:induction false} TraceFits(g: seq<Node>, dt: bool, src: int, t: Labels, v: int, m: int)
    requires Forest(g, dt, src, t) && 0 <= v < |g|
    requires -32768 <= m <= 32767
    ensures -32768 <= TraceMetric(g, dt, src, t, v, m) <= 32767
    ensures 0 <= m && m + TruncatedSum(g, dt, src, t, v) <= 32767 ==>
              TraceMetric(g, dt, src, t, v, m) == m + TruncatedSum(g, dt, src, t, v)
    decreases t.rank[v]
  {
    assert Labelled(g, dt, src, t, v);
    if t.prev[v] != -1 {
      SafeAddFits(m, LinkInto(g, dt, src, t, v).metric);
      TraceFits(g, dt, src, t, t.prev[v] - 1, SafeAdd(m, LinkInto(g, dt, src, t, v).metric));
    }
  }

  /** The metric of a route, as emitted: the trace starts at 1. */
  ghost function HopMetric(g: seq<Node>, dt: bool, src: int, t: Labels, v: int): int
    requires Forest(g, dt, src, t) && 0 <= v < |g|
  {
    TraceMetric(g, dt, src, t, v, 1)
  }

  /** The emitted metric is one more than the sum of truncated link metrics exactly when that fits a `short`. */
  lemma HopMetricExact(g: seq<Node>, dt: bool, src: int, t: Labels, v: int)
    requires Forest(g, dt, src, t) && 0 <= v < |g|
    ensures HopMetric(g, dt, src, t, v) == 1 + TruncatedSum(g, dt, src, t, v) <==>
            1 + TruncatedSum(g, dt, src, t, v) <= 32767
  {
    TraceFits(g, dt, src, t, v, 1);
  }

  ghost predicate AllMetricsAre(g: seq<Node>, dt: bool, metric: real) {
    forall u, l :: Usable(g, dt, u, l) ==> Cost(g, u, l) == metric
  }

  /** `metric` added n times to m. */
  ghost function AddedUp(metric: real, n: nat, m: int): int {
    if n == 0 then m else AddedUp(metric, n - 1, SafeAdd(m, metric))
  }

  lemma {:induction false} EvenTrace(g: seq<Node>, dt: bool, src: int, t: Labels, v: int, m: int, metric: real)
    requires Forest(g, dt, src, t) && 0 <= v < |g| && AllMetricsAre(g, dt, metric)
    ensures TraceMetric(g, dt, src, t, v, m) == AddedUp(metric, Depth(g, dt, src, t, v), m)
    decreases t.rank[v]
  {
    assert Labelled(g, dt, src, t, v);
    if t.prev[v] != -1 {
      assert LinkInto(g, dt, src, t, v).metric == Cost(g, t.prev[v] - 1, t.via[v]);
      EvenTrace(g, dt, src, t, t.prev[v] - 1, SafeAdd(m, metric), metric);
    }
  }

  /** Over links of metric 10000 the metric is right for three hops, -1 for four, and starts over from there. */
  lemma OverflowStartsOver(g: seq<Node>, dt: bool, src: int, t: Labels, v: int)
    requires Forest(g, dt, src, t) && 0 <= v < |g| && AllMetricsAre(g, dt, 10000.0)
    ensures Depth(g, dt, src, t, v) == 3 ==> HopMetric(g, dt, src, t, v) == 30001
    ensures Depth(g, dt, src, t, v) == 4 ==> HopMetric(g, dt, src, t, v) == -1
    ensures Depth(g, dt, src, t, v) == 5 ==> HopMetric(g, dt, src, t, v) == 9999
  {
    EvenTrace(g, dt, src, t, v, 1, 10000.0);
    SafeAddOverflows(1, 10000.0);
    SafeAddOverflows(10001, 10000.0);
    SafeAddOverflows(20001, 10000.0);
    SafeAddOverflows(30001, 10000.0);
    SafeAddOverflows(-1, 10000.0);
    assert AddedUp(10000.0, 3, 1) == AddedUp(10000.0, 0, 30001);
    assert AddedUp(10000.0, 4, 1) == AddedUp(10000.0, 1, 30001) == AddedUp(10000.0, 0, -1);
    assert AddedUp(10000.0, 5, 1) == AddedUp(10000.0, 2, 30001) == AddedUp(10000.0, 1, -1);
  }

  /** The truncation loses less than one per hop. */
  lemma {:induction false} SumTracksDistance(g: seq<Node>, dt: bool, src: int, t: Labels, v: int)
    requires Forest(g, dt, src, t) && 0 <= v < |g|
    requires t.dist[v] < INFINITE_DISTANCE
    ensures TruncatedSum(g, dt, src, t, v) as real <= t.dist[v]
    ensures t.prev[v] != -1 ==> t.dist[v] - Depth(g, dt, src, t, v) as real < TruncatedSum(g, dt, src, t, v) as real
    ensures AllMetricsAre(g, dt, 1.0) ==> TruncatedSum(g, dt, src, t, v) == Depth(g, dt, src, t, v)
    decreases t.rank[v]
  {
    assert Labelled(g, dt, src, t, v);
    if t.prev[v] != -1 {
      assert Labelled(g, dt, src, t, t.prev[v] - 1);
      SumTracksDistance(g, dt, src, t, t.prev[v] - 1);
    }
  }

  /** A metric that fits lies within one per hop of the distance, and in LSR it counts the hops. */
  lemma HopMetricBounds(g: seq<Node>, dt: bool, src: int, t: Labels, v: int)
    requires Forest(g, dt, src, t)
    requires 0 <= v < |g| && t.prev[v] != -1 && 1 + TruncatedSum(g, dt, src, t, v) <= 32767
    ensures 1.0 + t.dist[v] - Depth(g, dt, src, t, v) as real < HopMetric(g, dt, src, t, v) as real <= 1.0 + t.dist[v]
    ensures AllMetricsAre(g, dt, 1.0) ==> HopMetric(g, dt, src, t, v) == 1 + Depth(g, dt, src, t, v)
  {
    assert Labelled(g, dt, src, t, v);
    SumTracksDistance(g, dt, src, t, v);
    HopMetricExact(g, dt, src, t, v);
  }

  // ---------- Table entries ----------

  /** The entry emitted for destination v. */
  ghost function TableEntry(g: seq<Node>, dt: bool, src: int, t: Labels, v: int): HopDest
    requires Forest(g, dt, src, t) && 0 <= v < |g|
  {
    if g[v].state != Unseen && t.prev[v] != -1 then
      var h := FirstHop(g, dt, src, t, v);
      HopDest(h + 1, LinkInto(g, dt, src, t, v).neighbourIp, HopMetric(g, dt, src, t, v),
              LinkInto(g, dt, src, t, h).status)
    else NO_ROUTE
  }

  /** `table` is what a finished search with labels `t` emits. */
  ghost predicate IsTable(g: seq<Node>, dt: bool, src: int, t: Labels, table: seq<HopDest>) {
    && ShortestTree(g, dt, src, t) && |table| == |g|
    && forall v {:trigger TableEntry(g, dt, src, t, v)} :: 0 <= v < |g| ==> table[v] == TableEntry(g, dt, src, t, v)
  }

  predicate Known(g: seq<Node>, id: int) {
    1 <= id <= |g| ==> g[id - 1].state != Unseen
  }

  /** Neighbours of routers whose record is known have themselves been heard of. */
  predicate Closed(g: seq<Node>) {
    forall u, l :: 0 <= u < |g| && g[u].state == Seen && 0 <= l < |g[u].links| ==> Known(g, g[u].links[l].neighbourId)
  }

  ghost function FirstStep(w: Walk): int
    requires w.Step?
  {
    if w.prefix == Origin then w.link else FirstStep(w.prefix)
  }

  /** The walk along the predecessors. */
  ghost function WayTo(g: seq<Node>, dt: bool, src: int, t: Labels, v: int): Walk
    requires Forest(g, dt, src, t) && 0 <= v < |g|
    decreases t.rank[v]
  {
    assert Labelled(g, dt, src, t, v);
    if t.prev[v] == -1 then Origin
    else Step(WayTo(g, dt, src, t, t.prev[v] - 1), t.prev[v] - 1, t.via[v])
  }

  /** The sum of a walk's metrics, each without its fraction. */
  ghost function TruncatedWeight(g: seq<Node>, dt: bool, src: int, w: Walk, v: int): int
    requires IsWalk(g, dt, src, w, v)
  {
    match w
    case Origin => 0
    case Step(p, u, l) => TruncatedWeight(g, dt, src, p, u) + Cost(g, u, l).Floor
  }

  /** The metrics of a walk added up by the code's addition from its end backwards, starting from m. */
  ghost function AddedBackwards(g: seq<Node>, dt: bool, src: int, w: Walk, v: int, m: int): int
    requires IsWalk(g, dt, src, w, v)
  {
    match w
    case Origin => m
    case Step(p, u, l) => AddedBackwards(g, dt, src, p, u, SafeAdd(m, Cost(g, u, l)))
  }

  function Length(w: Walk): nat { if w.Step? then Length(w.prefix) + 1 else 0 }

  lemma {:induction false} WayMetrics(g: seq<Node>, dt: bool, src: int, t: Labels, v: int, m: int)
    requires Forest(g, dt, src, t) && 0 <= v < |g| && IsWalk(g, dt, src, WayTo(g, dt, src, t, v), v)
    ensures AddedBackwards(g, dt, src, WayTo(g, dt, src, t, v), v, m) == TraceMetric(g, dt, src, t, v, m)
    ensures TruncatedWeight(g, dt, src, WayTo(g, dt, src, t, v), v) == TruncatedSum(g, dt, src, t, v)
    decreases t.rank[v]
  {
    assert Labelled(g, dt, src, t, v);
    if t.prev[v] != -1 {
      WayMetrics(g, dt, src, t, t.prev[v] - 1, SafeAdd(m, LinkInto(g, dt, src, t, v).metric));
    }
  }

  /** Truncation loses less than one per link. */
  lemma {:induction false} TruncationLoss(g: seq<Node>, dt: bool, src: int, w: Walk, v: int)
    requires IsWalk(g, dt, src, w, v)
    ensures Weight(g, dt, src, w, v) - Length(w) as real <= TruncatedWeight(g, dt, src, w, v) as real
         <= Weight(g, dt, src, w, v)
    ensures w.Step? ==> Weight(g, dt, src, w, v) - Length(w) as real < TruncatedWeight(g, dt, src, w, v) as real
    ensures AllMetricsAre(g, dt, 1.0) ==> TruncatedWeight(g, dt, src, w, v) == Length(w)
  {
    if w.Step? { TruncationLoss(g, dt, src, w.prefix, w.from); }
  }

  /**
   The metric that a table gives for a route: there is a least-weight walk to the destination, over the next hop, whose
   truncated metrics added to 1 are the metric exactly when that fits a `short`. It then lies within one per link of the
   distance, and in LSR it counts the links. In any case it is what the code's addition makes of that walk.
   */
  lemma RouteMetric(g: seq<Node>, dt: bool, src: int, t: Labels, table: seq<HopDest>, v: int) returns (w: Walk)
    requires IsTable(g, dt, src, t, table) && 0 <= v < |g| && table[v].nextHop != -1
    ensures w.Step? && IsWalk(g, dt, src, w, v) && IsDistance(g, dt, src, v, Weight(g, dt, src, w, v))
    ensures Usable(g, dt, src - 1, FirstStep(w)) && Target(g, src - 1, FirstStep(w)) == table[v].nextHop - 1
    ensures table[v].metric == AddedBackwards(g, dt, src, w, v, 1)
    ensures table[v].metric == 1 + TruncatedWeight(g, dt, src, w, v) <==> 1 + TruncatedWeight(g, dt, src, w, v) <= 32767
    ensures 1 + TruncatedWeight(g, dt, src, w, v) <= 32767 ==>
              1.0 + Weight(g, dt, src, w, v) - Length(w) as real < table[v].metric as real <= 1.0 + Weight(g, dt, src, w, v)
    ensures AllMetricsAre(g, dt, 1.0) && Length(w) < 32767 ==> table[v].metric == 1 + Length(w)
  {
    var k;
    k, w := RouteIsShortest(g, dt, src, t, table, v);
    EntryFields(g, dt, src, t, table, v);
    WayMetrics(g, dt, src, t, v, 1);
    HopMetricExact(g, dt, src, t, v);
    TruncationLoss(g, dt, src, w, v);
  }

  /** A least-weight walk to v that leaves the source over its link to the first hop. */
  lemma {:induction false} WalkThroughFirstHop(g: seq<Node>, dt: bool, src: int, t: Labels, v: int) returns (w: Walk)
    requires Forest(g, dt, src, t) && 0 <= v < |g| && t.prev[v] != -1
    ensures w.Step? && IsWalk(g, dt, src, w, v) && Weight(g, dt, src, w, v) == t.dist[v]
    ensures FirstStep(w) == t.via[FirstHop(g, dt, src, t, v)]
    ensures w.from == t.prev[v] - 1 && w.link == t.via[v] && w == WayTo(g, dt, src, t, v)
    decreases t.rank[v]
  {
    assert Labelled(g, dt, src, t, v);
    var u := t.prev[v] - 1;
    assert Labelled(g, dt, src, t, u);
    if t.prev[u] == -1 {
      w := Step(Origin, u, t.via[v]);
      assert IsWalk(g, dt, src, Origin, u);
    } else {
      var p := WalkThroughFirstHop(g, dt, src, t, u);
      w := Step(p, u, t.via[v]);
    }
  }

  /** In a closed graph -1 is emitted exactly for the source and for destinations at the sentinel. */
  lemma NoRouteIff(g: seq<Node>, dt: bool, src: int, t: Labels, table: seq<HopDest>, v: int)
    requires IsTable(g, dt, src, t, table) && 0 <= v < |g|
    requires Closed(g)
    ensures table[v].nextHop == -1 <==> v + 1 == src || t.dist[v] == INFINITE_DISTANCE
    ensures table[v].nextHop == -1 ==> table[v] == HopDest(-1, Ipv4(0, 0, 0, 0), 0, Down)
  {
    assert table[v] == TableEntry(g, dt, src, t, v);
    assert Labelled(g, dt, src, t, v);
    if t.prev[v] != -1 {
      assert Known(g, g[t.prev[v] - 1].links[t.via[v]].neighbourId);
    }
  }

  /** A route leads over a usable link of the source to a neighbour that starts a least-weight walk. */
  lemma RouteIsShortest(g: seq<Node>, dt: bool, src: int, t: Labels, table: seq<HopDest>, v: int)
      returns (k: int, w: Walk)
    requires IsTable(g, dt, src, t, table) && 0 <= v < |g| && table[v].nextHop != -1
    ensures SourceSeen(g, src) && v + 1 != src && Usable(g, dt, src - 1, k)
    ensures g[src - 1].links[k].neighbourId == table[v].nextHop
    ensures g[src - 1].links[k].status == table[v].nextHopState
    ensures w.Step? && IsWalk(g, dt, src, w, v) && FirstStep(w) == k
    ensures Forest(g, dt, src, t) && w == WayTo(g, dt, src, t, v)
    ensures IsDistance(g, dt, src, v, Weight(g, dt, src, w, v)) && Weight(g, dt, src, w, v) < INFINITE_DISTANCE
    // the destination address is that of v on the last link of the walk
    ensures Usable(g, dt, w.from, w.link) && table[v].destIp == g[w.from].links[w.link].neighbourIp
  {
    EntryFields(g, dt, src, t, table, v);
    w := WalkThroughFirstHop(g, dt, src, t, v);
    k := FirstLink(g, dt, src, t, v);
    LastLink(g, dt, src, t, v);
    LabelsAreDistances(g, dt, src, t, v);
  }

  lemma EntryFields(g: seq<Node>, dt: bool, src: int, t: Labels, table: seq<HopDest>, v: int)
    requires IsTable(g, dt, src, t, table) && 0 <= v < |g| && table[v].nextHop != -1
    ensures t.prev[v] != -1
    ensures var h := FirstHop(g, dt, src, t, v);
            table[v].nextHop == h + 1 && table[v].nextHopState == LinkInto(g, dt, src, t, h).status
    ensures table[v].destIp == LinkInto(g, dt, src, t, v).neighbourIp
    ensures table[v].metric == HopMetric(g, dt, src, t, v)
  {
    assert table[v] == TableEntry(g, dt, src, t, v);
  }

  lemma LastLink(g: seq<Node>, dt: bool, src: int, t: Labels, v: int)
    requires Forest(g, dt, src, t) && 0 <= v < |g| && t.prev[v] != -1
    ensures Usable(g, dt, t.prev[v] - 1, t.via[v]) && LinkInto(g, dt, src, t, v) == g[t.prev[v] - 1].links[t.via[v]]
    ensures v + 1 != src && t.dist[v] < INFINITE_DISTANCE
  {
    assert Labelled(g, dt, src, t, v);
  }

  /** The source's link over which v is reached. */
  lemma FirstLink(g: seq<Node>, dt: bool, src: int, t: Labels, v: int) returns (k: int)
    requires Forest(g, dt, src, t) && 0 <= v < |g| && t.prev[v] != -1
    ensures SourceSeen(g, src) && Usable(g, dt, src - 1, k)
    ensures var h := FirstHop(g, dt, src, t, v);
            k == t.via[h] && g[src - 1].links[k].neighbourId == h + 1 && LinkInto(g, dt, src, t, h) == g[src - 1].links[k]
  {
    var h := FirstHop(g, dt, src, t, v);
    assert Labelled(g, dt, src, t, h);
    k := t.via[h];
  }
}
