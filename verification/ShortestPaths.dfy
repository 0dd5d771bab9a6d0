/**
 Walks over a link-state graph, the labels a search leaves on them, and what those labels mean.
 Nodes are named by index here: index v is the router with id v + 1.
 The flag `dt` is the DTLSR build, which also routes over links that are down.
 */
module ShortestPaths {
  import opened Network

  // ---------- Walks ----------

  /** Link l of node u may carry a route: u's own record is known and, without DTLSR, the link is up. */
  ghost predicate Usable(g: seq<Node>, dt: bool, u: int, l: int) {
    0 <= u < |g| && g[u].state == Seen && 0 <= l < |g[u].links| && (dt || g[u].links[l].status == Up)
  }

  ghost function Target(g: seq<Node>, u: int, l: int): int
    requires 0 <= u < |g| && 0 <= l < |g[u].links|
  {
    g[u].links[l].neighbourId - 1
  }

  ghost function Cost(g: seq<Node>, u: int, l: int): real
    requires 0 <= u < |g| && 0 <= l < |g[u].links|
  {
    g[u].links[l].metric
  }

  datatype Walk = Origin | Step(prefix: Walk, from: int, link: int)

  /** `w` leads from router id `src`, whose own record is known, to node v over usable links. */
  ghost predicate IsWalk(g: seq<Node>, dt: bool, src: int, w: Walk, v: int) {
    match w
    case Origin => 0 <= v < |g| && v + 1 == src && g[v].state == Seen
    case Step(p, u, l) => IsWalk(g, dt, src, p, u) && Usable(g, dt, u, l) && Target(g, u, l) == v
  }

  ghost function Weight(g: seq<Node>, dt: bool, src: int, w: Walk, v: int): real
    requires IsWalk(g, dt, src, w, v)
  {
    match w
    case Origin => 0.0
    case Step(p, u, l) => Weight(g, dt, src, p, u) + Cost(g, u, l)
  }

  ghost predicate Reachable(g: seq<Node>, dt: bool, src: int, v: int) {
    exists w :: IsWalk(g, dt, src, w, v)
  }

  /** `d` is the smaller of the sentinel and the least weight over all walks to v. */
  ghost predicate IsDistance(g: seq<Node>, dt: bool, src: int, v: int, d: real) {
    && d <= INFINITE_DISTANCE
    && (forall w | IsWalk(g, dt, src, w, v) :: d <= Weight(g, dt, src, w, v))
    && (d == INFINITE_DISTANCE || exists w :: IsWalk(g, dt, src, w, v) && Weight(g, dt, src, w, v) == d)
  }

  // ---------- Labels ----------

  /**
   Distance and predecessor labels. `via[v]` is the predecessor's link over which v was last labelled,
   `rank[v]` the position in which v was popped, or |dist| if it was not.
   */
  datatype Labels = Labels(dist: seq<real>, prev: seq<int>, via: seq<int>, rank: seq<nat>, popped: nat)

  ghost predicate Shape(g: seq<Node>, t: Labels) {
    && |t.dist| == |t.prev| == |t.via| == |t.rank| == |g|
    && (forall v :: 0 <= v < |g| ==> 0.0 <= t.dist[v] <= INFINITE_DISTANCE)
    && (forall v :: 0 <= v < |g| ==> t.rank[v] == |g| || (t.rank[v] < t.popped && g[v].state == Seen))
    && (forall u, v :: 0 <= u < v < |g| && t.rank[u] == t.rank[v] ==> t.rank[u] == |g|)
    && |PoppedSet(t)| == t.popped <= |g|
  }

  ghost function PoppedSet(t: Labels): set<int> {
    set v | 0 <= v < |t.rank| && t.rank[v] < t.popped
  }

  ghost predicate SourceSeen(g: seq<Node>, src: int) {
    1 <= src <= |g| && g[src - 1].state == Seen
  }

  /** v was last labelled over a usable link of a node popped before it. */
  ghost predicate TreeEdge(g: seq<Node>, dt: bool, src: int, t: Labels, v: int)
    requires |t.dist| == |t.prev| == |t.via| == |t.rank| == |g| && 0 <= v < |g|
  {
    var u, l := t.prev[v] - 1, t.via[v];
    && Usable(g, dt, u, l) && Target(g, u, l) == v && 0.0 <= Cost(g, u, l)
    && t.rank[u] < t.popped && t.rank[u] < t.rank[v]
    && t.dist[v] == t.dist[u] + Cost(g, u, l) < INFINITE_DISTANCE
    && v + 1 != src && SourceSeen(g, src)
  }

  ghost predicate Labelled(g: seq<Node>, dt: bool, src: int, t: Labels, v: int)
    requires |t.dist| == |t.prev| == |t.via| == |t.rank| == |g| && 0 <= v < |g|
  {
    if t.prev[v] == -1 then
      t.dist[v] == if v + 1 == src && g[v].state == Seen then 0.0 else INFINITE_DISTANCE
    else
      TreeEdge(g, dt, src, t, v)
  }

  /** The predecessors of all nodes form a forest rooted in the source and the unreached nodes. */
  ghost predicate Forest(g: seq<Node>, dt: bool, src: int, t: Labels) {
    && |t.dist| == |t.prev| == |t.via| == |t.rank| == |g|
    && forall v :: 0 <= v < |g| ==> Labelled(g, dt, src, t, v)
  }

  /** Popped nodes are no further than any node popped later or still queued. */
  ghost predicate InOrder(g: seq<Node>, t: Labels)
    requires Shape(g, t)
  {
    forall u, v :: 0 <= u < |g| && 0 <= v < |g| && t.rank[u] < t.rank[v] && g[v].state == Seen ==>
      t.dist[u] <= t.dist[v]
  }

  /** What every pop and every relaxation keeps. */
  ghost predicate Search(g: seq<Node>, dt: bool, src: int, t: Labels) {
    Shape(g, t) && InOrder(g, t) && Forest(g, dt, src, t)
  }

  ghost predicate RelaxedLink(g: seq<Node>, t: Labels, u: int, l: int)
    requires |t.dist| == |g| && 0 <= u < |g| && 0 <= l < |g[u].links|
  {
    0 <= Target(g, u, l) < |g| && t.dist[Target(g, u, l)] <= t.dist[u] + Cost(g, u, l)
  }

  /** The links of the first `n` popped nodes offer no improvement. */
  ghost predicate Relaxed(g: seq<Node>, dt: bool, t: Labels, n: int)
    requires |t.dist| == |t.rank| == |g|
  {
    forall u, l :: Usable(g, dt, u, l) && t.rank[u] < n ==> RelaxedLink(g, t, u, l)
  }

  /** The labels of a finished search. */
  ghost predicate ShortestTree(g: seq<Node>, dt: bool, src: int, t: Labels) {
    && Search(g, dt, src, t) && Relaxed(g, dt, t, t.popped)
    && forall v :: 0 <= v < |g| && g[v].state == Seen ==> t.rank[v] < t.popped
  }

  // ---------- Steps of the search ----------

  ghost function InitialLabels(g: seq<Node>, src: int): Labels {
    Labels(seq(|g|, i requires 0 <= i < |g| => if i + 1 == src && g[i].state == Seen then 0.0 else INFINITE_DISTANCE),
           seq(|g|, _ => -1), seq(|g|, _ => 0), seq(|g|, _ => |g|), 0)
  }

  lemma SearchStarts(g: seq<Node>, dt: bool, src: int)
    ensures Search(g, dt, src, InitialLabels(g, src)) && Relaxed(g, dt, InitialLabels(g, src), 0)
  {
    assert PoppedSet(InitialLabels(g, src)) == {};
  }

  ghost function PopLabels(t: Labels, u: int): Labels
    requires 0 <= u < |t.rank|
  {
    t.(rank := t.rank[u := t.popped], popped := t.popped + 1)
  }

  ghost function RelaxLabels(t: Labels, u: int, l: int, v: int, d: real): Labels
    requires 0 <= v < |t.dist| && |t.dist| == |t.prev| == |t.via|
  {
    t.(dist := t.dist[v := d], prev := t.prev[v := u + 1], via := t.via[v := l])
  }

  lemma {:induction false} RangeCard(n: nat, s: set<int>)
    requires forall x :: x in s ==> 0 <= x < n
    ensures |s| <= n
    ensures |s| == n ==> forall x :: 0 <= x < n ==> x in s
  {
    if n == 0 {
      assert forall x :: x !in s;
      assert |s| == 0;
    } else {
      var r := s - {n - 1};
      assert s == if n - 1 in s then r + {n - 1} else r;
      RangeCard(n - 1, r);
    }
  }

  lemma PopKeepsShape(g: seq<Node>, t: Labels, u: int)
    requires Shape(g, t)
    requires 0 <= u < |g| && g[u].state == Seen && t.rank[u] == |g|
    ensures t.popped < |g| && Shape(g, PopLabels(t, u))
  {
    RangeCard(|g|, PoppedSet(t));
    assert u !in PoppedSet(t);
    PopAddsOne(t, u);
  }

  lemma PopAddsOne(t: Labels, u: int)
    requires 0 <= u < |t.rank| && t.rank[u] == |t.rank| && t.popped < |t.rank|
    requires forall v :: 0 <= v < |t.rank| ==> t.rank[v] == |t.rank| || t.rank[v] < t.popped
    ensures PoppedSet(PopLabels(t, u)) == PoppedSet(t) + {u} && u !in PoppedSet(t)
  {
  }

  lemma PopKeepsOrder(g: seq<Node>, t: Labels, u: int)
    requires Shape(g, t) && InOrder(g, t)
    requires 0 <= u < |g| && g[u].state == Seen && t.rank[u] == |g|
    requires forall v :: 0 <= v < |g| && g[v].state == Seen && t.rank[v] == |g| ==> t.dist[u] <= t.dist[v]
    requires Shape(g, PopLabels(t, u))
    ensures InOrder(g, PopLabels(t, u))
  {
    var t' := PopLabels(t, u);
    forall x, v | 0 <= x < |g| && 0 <= v < |g| && t'.rank[x] < t'.rank[v] && g[v].state == Seen
      ensures t.dist[x] <= t.dist[v]
    {
      if x == u {
        assert t.rank[v] == |g|;
      } else {
        assert t.rank[x] < t.rank[v];
      }
    }
  }

  /** `u` is a queued node of least distance. */
  ghost predicate NextToPop(g: seq<Node>, t: Labels, u: int)
    requires |t.dist| == |t.rank| == |g|
  {
    && 0 <= u < |g| && g[u].state == Seen && t.rank[u] == |g|
    && forall v :: 0 <= v < |g| && g[v].state == Seen && t.rank[v] == |g| ==> t.dist[u] <= t.dist[v]
  }

  lemma PopKeepsForest(g: seq<Node>, dt: bool, src: int, t: Labels, u: int)
    requires Forest(g, dt, src, t) && 0 <= u < |g| && t.rank[u] == |g| && t.popped < |g|
    ensures Forest(g, dt, src, PopLabels(t, u))
  {
    var t' := PopLabels(t, u);
    forall v | 0 <= v < |g| ensures Labelled(g, dt, src, t', v) {
      assert Labelled(g, dt, src, t, v);
    }
  }

  lemma PopKeepsRelaxed(g: seq<Node>, dt: bool, t: Labels, u: int)
    requires |t.dist| == |t.rank| == |g| && Relaxed(g, dt, t, t.popped)
    requires 0 <= u < |g|
    ensures Relaxed(g, dt, PopLabels(t, u), t.popped)
  {
    forall x, k | Usable(g, dt, x, k) && PopLabels(t, u).rank[x] < t.popped
      ensures RelaxedLink(g, PopLabels(t, u), x, k)
    {
      assert RelaxedLink(g, t, x, k);
    }
  }

  lemma PopKeepsSearch(g: seq<Node>, dt: bool, src: int, t: Labels, u: int)
    requires Search(g, dt, src, t) && Relaxed(g, dt, t, t.popped)
    requires NextToPop(g, t, u)
    ensures t.popped < |g|
    ensures Search(g, dt, src, PopLabels(t, u)) && Relaxed(g, dt, PopLabels(t, u), t.popped)
  {
    PopKeepsShape(g, t, u);
    PopKeepsOrder(g, t, u);
    PopKeepsForest(g, dt, src, t, u);
    PopKeepsRelaxed(g, dt, t, u);
  }

  lemma UsableIsGood(g: seq<Node>, dt: bool, u: int, l: int)
    requires GoodGraph(g) && Usable(g, dt, u, l)
    ensures 0 <= Target(g, u, l) < |g| && 0.0 <= Cost(g, u, l)
  {
    assert GoodNode(g[u], |g|);
  }

  /** Of two popped nodes the later one is no closer. */
  lemma LastOfTwo(g: seq<Node>, t: Labels, u: int, v: int)
    requires Shape(g, t) && InOrder(g, t)
    requires 0 <= u < |g| && 0 <= v < |g| && t.rank[v] <= t.rank[u] < |g| && g[u].state == Seen
    ensures t.dist[v] <= t.dist[u]
  {
    assert u == v || t.rank[v] < t.rank[u];
  }

  /** A strict improvement over a link of the node popped last can only concern a node that is not popped yet. */
  lemma ImprovedIsQueued(g: seq<Node>, dt: bool, src: int, t: Labels, u: int, l: int, v: int, d: real)
    requires Search(g, dt, src, t) && Usable(g, dt, u, l) && t.rank[u] == t.popped - 1
    requires v == Target(g, u, l) && 0 <= v < |g| && 0.0 <= Cost(g, u, l)
    requires d == t.dist[u] + Cost(g, u, l) < t.dist[v]
    ensures t.rank[v] == |g| && v + 1 != src && SourceSeen(g, src)
  {
    if t.rank[v] < t.popped { LastOfTwo(g, t, u, v); }
    assert Labelled(g, dt, src, t, v) && Labelled(g, dt, src, t, u);
  }

  lemma RelaxKeepsShape(g: seq<Node>, t: Labels, u: int, l: int, v: int, d: real)
    requires Shape(g, t) && 0 <= v < |g| && 0.0 <= d <= INFINITE_DISTANCE
    ensures Shape(g, RelaxLabels(t, u, l, v, d))
  {
    assert PoppedSet(RelaxLabels(t, u, l, v, d)) == PoppedSet(t);
  }

  lemma RelaxKeepsOrder(g: seq<Node>, t: Labels, u: int, l: int, v: int, d: real)
    requires Shape(g, t) && InOrder(g, t)
    requires 0 <= u < |g| && 0 <= v < |g| && t.rank[u] == t.popped - 1 && t.rank[v] == |g|
    requires t.dist[u] <= d < t.dist[v]
    requires g[u].state == Seen && Shape(g, RelaxLabels(t, u, l, v, d))
    ensures InOrder(g, RelaxLabels(t, u, l, v, d))
  {
    var t' := RelaxLabels(t, u, l, v, d);
    forall x, y | 0 <= x < |g| && 0 <= y < |g| && t.rank[x] < t.rank[y] && g[y].state == Seen
      ensures t'.dist[x] <= t'.dist[y]
    {
      assert t.dist[x] <= t.dist[y];
      if y == v && x != u {
        assert t.rank[x] < t.rank[u];
        assert t.dist[x] <= t.dist[u];
      }
    }
  }

  lemma RelaxKeepsForest(g: seq<Node>, dt: bool, src: int, t: Labels, u: int, l: int, v: int, d: real)
    requires Forest(g, dt, src, t) && Usable(g, dt, u, l) && v == Target(g, u, l) && 0 <= v < |g|
    requires t.rank[u] < t.popped <= |g| && t.rank[v] == |g|
    requires forall x :: 0 <= x < |g| && t.rank[x] < t.popped ==> t.rank[x] < |g|
    requires d == t.dist[u] + Cost(g, u, l) < INFINITE_DISTANCE && 0.0 <= Cost(g, u, l)
    requires v + 1 != src && SourceSeen(g, src)
    ensures Forest(g, dt, src, RelaxLabels(t, u, l, v, d))
  {
    var t' := RelaxLabels(t, u, l, v, d);
    forall x | 0 <= x < |g| ensures Labelled(g, dt, src, t', x) {
      assert Labelled(g, dt, src, t, x);
    }
  }

  lemma RelaxKeepsRelaxed(g: seq<Node>, dt: bool, t: Labels, u: int, l: int, v: int, d: real)
    requires Shape(g, t) && Relaxed(g, dt, t, t.popped - 1)
    requires 0 <= v < |g| && t.rank[v] == |g| && d < t.dist[v]
    ensures Relaxed(g, dt, RelaxLabels(t, u, l, v, d), t.popped - 1)
  {
    forall x, k | Usable(g, dt, x, k) && t.rank[x] < t.popped - 1
      ensures RelaxedLink(g, RelaxLabels(t, u, l, v, d), x, k)
    {
      assert RelaxedLink(g, t, x, k);
    }
  }

  lemma RelaxKeepsSearch(g: seq<Node>, dt: bool, src: int, t: Labels, u: int, l: int, v: int, d: real)
    requires Search(g, dt, src, t) && Relaxed(g, dt, t, t.popped - 1)
    requires Usable(g, dt, u, l) && t.rank[u] == t.popped - 1
    requires v == Target(g, u, l) && 0 <= v < |g| && 0.0 <= Cost(g, u, l)
    requires d == t.dist[u] + Cost(g, u, l) < t.dist[v]
    ensures t.rank[v] == |g|
    ensures Search(g, dt, src, RelaxLabels(t, u, l, v, d)) && Relaxed(g, dt, RelaxLabels(t, u, l, v, d), t.popped - 1)
  {
    ImprovedIsQueued(g, dt, src, t, u, l, v, d);
    RelaxKeepsShape(g, t, u, l, v, d);
    RelaxKeepsOrder(g, t, u, l, v, d);
    RelaxKeepsForest(g, dt, src, t, u, l, v, d);
    RelaxKeepsRelaxed(g, dt, t, u, l, v, d);
  }

  // ---------- Optimality ----------

  lemma {:induction false} LabelsAreLowerBounds(g: seq<Node>, dt: bool, src: int, t: Labels, w: Walk, v: int)
    requires ShortestTree(g, dt, src, t) && IsWalk(g, dt, src, w, v)
    ensures 0 <= v < |g| && t.dist[v] <= Weight(g, dt, src, w, v)
  {
    match w
    case Origin =>
      assert Labelled(g, dt, src, t, v);
    case Step(p, u, l) =>
      LabelsAreLowerBounds(g, dt, src, t, p, u);
      assert RelaxedLink(g, t, u, l);
  }

  lemma {:induction false} LabelsAreWeights(g: seq<Node>, dt: bool, src: int, t: Labels, v: int) returns (w: Walk)
    requires Forest(g, dt, src, t) && 0 <= v < |g| && t.dist[v] < INFINITE_DISTANCE
    ensures IsWalk(g, dt, src, w, v) && Weight(g, dt, src, w, v) == t.dist[v]
    decreases t.rank[v]
  {
    assert Labelled(g, dt, src, t, v);
    if t.prev[v] == -1 {
      w := Origin;
    } else {
      var p := LabelsAreWeights(g, dt, src, t, t.prev[v] - 1);
      w := Step(p, t.prev[v] - 1, t.via[v]);
    }
  }

  /** Every label is the smaller of the sentinel and the least weight of a walk. */
  lemma LabelsAreDistances(g: seq<Node>, dt: bool, src: int, t: Labels, v: int)
    requires ShortestTree(g, dt, src, t) && 0 <= v < |g|
    ensures IsDistance(g, dt, src, v, t.dist[v])
  {
    forall w | IsWalk(g, dt, src, w, v) ensures t.dist[v] <= Weight(g, dt, src, w, v) {
      LabelsAreLowerBounds(g, dt, src, t, w, v);
    }
    if t.dist[v] < INFINITE_DISTANCE {
      var w := LabelsAreWeights(g, dt, src, t, v);
    }
  }

  /** A finished search has popped every node with a known record, no other, each once, and in order of distance. */
  lemma PoppedOnceInOrder(g: seq<Node>, dt: bool, src: int, t: Labels)
    requires ShortestTree(g, dt, src, t)
    ensures PoppedSet(t) == set v | 0 <= v < |g| && g[v].state == Seen
    ensures |PoppedSet(t)| == t.popped
    ensures forall u, v :: u in PoppedSet(t) && v in PoppedSet(t) && u != v ==> t.rank[u] != t.rank[v]
    ensures forall u, v :: u in PoppedSet(t) && v in PoppedSet(t) && t.dist[u] < t.dist[v] ==> t.rank[u] < t.rank[v]
  {
    assert forall v :: v in PoppedSet(t) ==> 0 <= v < |g| && t.rank[v] < |g|;
    forall u, v | u in PoppedSet(t) && v in PoppedSet(t) && t.rank[v] <= t.rank[u] ensures t.dist[v] <= t.dist[u] {
      LastOfTwo(g, t, u, v);
    }
  }

  // ---------- The sentinel ----------

  ghost predicate MetricsAtMost(g: seq<Node>, bound: real) {
    forall u, l :: 0 <= u < |g| && g[u].state == Seen && 0 <= l < |g[u].links| ==> g[u].links[l].metric <= bound
  }

  /** The weight of n links that all cost `bound`. */
  ghost function Hops(bound: real, n: nat): real {
    if n == 0 then 0.0 else Hops(bound, n - 1) + bound
  }

  lemma HopsGrow(bound: real, a: nat, b: nat)
    requires bound >= 0.0 && a <= b
    ensures Hops(bound, a) <= Hops(bound, b)
    decreases b
  {
    if a < b { HopsGrow(bound, a, b - 1); }
  }

  lemma {:induction false} LabelsGrowWithRank(g: seq<Node>, dt: bool, src: int, t: Labels, bound: real, v: int)
    requires Forest(g, dt, src, t) && bound >= 0.0 && MetricsAtMost(g, bound)
    requires 0 <= v < |g| && t.dist[v] < INFINITE_DISTANCE
    ensures t.dist[v] <= Hops(bound, t.rank[v])
    decreases t.rank[v]
  {
    HopsGrow(bound, 0, t.rank[v]);
    assert Labelled(g, dt, src, t, v);
    if t.prev[v] != -1 {
      LabelsGrowWithRank(g, dt, src, t, bound, t.prev[v] - 1);
      HopsGrow(bound, t.rank[t.prev[v] - 1] + 1, t.rank[v]);
    }
  }

  lemma {:induction false} WalksStayBelowSentinel(g: seq<Node>, dt: bool, src: int, t: Labels, bound: real,
            w: Walk, v: int)
    requires ShortestTree(g, dt, src, t) && bound >= 0.0 && MetricsAtMost(g, bound)
    requires Hops(bound, |g|) < INFINITE_DISTANCE
    requires IsWalk(g, dt, src, w, v)
    ensures 0 <= v < |g| && t.dist[v] < INFINITE_DISTANCE
  {
    match w
    case Origin =>
      assert Labelled(g, dt, src, t, v);
    case Step(p, u, l) =>
      WalksStayBelowSentinel(g, dt, src, t, bound, p, u);
      LabelsGrowWithRank(g, dt, src, t, bound, u);
      assert RelaxedLink(g, t, u, l);
      HopsGrow(bound, t.rank[u] + 1, |g|);
  }

  /** With bounded metrics a predecessor is recorded exactly for the other routers that can be reached at all. */
  lemma PredecessorIffReachable(g: seq<Node>, dt: bool, src: int, t: Labels, bound: real, v: int)
    requires ShortestTree(g, dt, src, t) && bound >= 0.0 && MetricsAtMost(g, bound)
    requires Hops(bound, |g|) < INFINITE_DISTANCE
    requires 0 <= v < |g|
    ensures t.prev[v] != -1 <==> v + 1 != src && Reachable(g, dt, src, v)
    ensures t.dist[v] < INFINITE_DISTANCE <==> Reachable(g, dt, src, v)
  {
    assert Labelled(g, dt, src, t, v);
    if t.dist[v] < INFINITE_DISTANCE {
      var w := LabelsAreWeights(g, dt, src, t, v);
    }
    if Reachable(g, dt, src, v) {
      var w :| IsWalk(g, dt, src, w, v);
      WalksStayBelowSentinel(g, dt, src, t, bound, w, v);
    }
  }
}
