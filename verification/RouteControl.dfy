/** Keeping the installed routes in step with the computed ones, through a fixed-size mirror that is marked and swept. */
module RouteControl {
  import opened Network

  /** What is handed to the kernel for a route: the fields of `struct rtentry` that vary. */
  datatype Route = Route(dst: Ipv4, gateway: Ipv4, metric: int)
  const ZERO_ROUTE := Route(NO_IP, NO_IP, 0)

  /** `struct simple_rt` */
  datatype Slot = Slot(route: Route, seen: bool, present: bool)
  const EMPTY_SLOT := Slot(ZERO_ROUTE, false, false)

  // ---------- Routes that are wanted ----------

  /** The address masked with 255.255.255.0. */
  function Subnet(ip: Ipv4): Ipv4 { ip.(d := 0) }

  /** Hosts share a subnet exactly if their first three octets agree. */
  lemma SubnetIs24(ip: Ipv4, other: Ipv4)
    ensures Subnet(ip) == Ipv4(ip.a, ip.b, ip.c, 0)
    ensures Subnet(ip) == Subnet(other) <==> ip.a == other.a && ip.b == other.b && ip.c == other.c
  {
  }

  function Reduced(h: HopDest): HopDest {
    if h.nextHop != -1 then h.(destIp := Subnet(h.destIp)) else h
  }

  function ReduceAll(hops: seq<HopDest>): (r: seq<HopDest>)
    ensures |r| == |hops|
  {
    seq(|hops|, i requires 0 <= i < |hops| => Reduced(hops[i]))
  }

  predicate SamePair(a: HopDest, b: HopDest) { a.nextHop == b.nextHop && a.destIp == b.destIp }

  predicate Repeats(hops: seq<HopDest>, i: int)
    requires 0 <= i < |hops|
  {
    exists j :: 0 <= j < i && SamePair(hops[i], hops[j])
  }

  /** Of the entries with one next hop and destination only the first stays. */
  function WithoutRepeats(hops: seq<HopDest>): (r: seq<HopDest>)
    ensures |r| == |hops|
  {
    seq(|hops|, i requires 0 <= i < |hops| => if Repeats(hops, i) then hops[i].(nextHop := -1) else hops[i])
  }

  function Filtered(hops: seq<HopDest>): (r: seq<HopDest>)
    ensures |r| == |hops|
  {
    WithoutRepeats(ReduceAll(hops))
  }

  /** The route over the first link that leads to the next hop; all zero if there is none. */
  function DeriveRoute(links: seq<Link>, h: HopDest): Route {
    if links == [] then ZERO_ROUTE
    else if links[0].neighbourId == h.nextHop then Route(h.destIp, links[0].neighbourIp, h.metric)
    else DeriveRoute(links[1..], h)
  }

  /** The routes that a route table asks for. */
  ghost function Wanted(links: seq<Link>, hops: seq<HopDest>): set<Route> {
    var f := Filtered(hops);
    set i | 0 <= i < |f| && f[i].nextHop != -1 :: DeriveRoute(links, f[i])
  }

  lemma {:induction false} DeriveRouteUses(links: seq<Link>, n: nat, h: HopDest, k: int)
    requires GoodLinks(links, n) && 0 <= k < |links| && links[k].neighbourId == h.nextHop
    ensures DeriveRoute(links, h) == Route(h.destIp, links[k].neighbourIp, h.metric)
  {
    if k > 0 {
      assert links[0].neighbourId != links[k].neighbourId;
      DeriveRouteUses(links[1..], n, h, k - 1);
    }
  }

  /** `WithoutRepeats` keeps every pair of next hop and destination, and each in one place only. */
  lemma PairsKeptOnce(hops: seq<HopDest>)
    ensures forall i :: 0 <= i < |hops| && hops[i].nextHop != -1 ==>
              exists j :: 0 <= j <= i && SamePair(WithoutRepeats(hops)[j], hops[i])
    ensures forall i :: 0 <= i < |hops| && WithoutRepeats(hops)[i].nextHop != -1 ==> WithoutRepeats(hops)[i] == hops[i]
    ensures forall i, j :: 0 <= i < j < |hops| && WithoutRepeats(hops)[j].nextHop != -1 ==>
              !SamePair(WithoutRepeats(hops)[i], WithoutRepeats(hops)[j])
  {
    forall i | 0 <= i < |hops| && hops[i].nextHop != -1
      ensures exists j :: 0 <= j <= i && SamePair(WithoutRepeats(hops)[j], hops[i])
    {
      var j := FirstOfPair(hops, i);
      assert SamePair(WithoutRepeats(hops)[j], hops[i]);
    }
  }

  lemma {:induction false} FirstOfPair(hops: seq<HopDest>, i: nat) returns (j: nat)
    requires i < |hops|
    ensures j <= i && SamePair(hops[i], hops[j]) && !Repeats(hops, j)
  {
    if Repeats(hops, i) {
      var k :| 0 <= k < i && SamePair(hops[i], hops[k]);
      j := FirstOfPair(hops, k);
    } else {
      j := i;
    }
  }

  /** Every next hop in use is one of the router's neighbours, as those that `Pathfind` yields are. */
  ghost predicate OverNeighbours(links: seq<Link>, hops: seq<HopDest>) {
    forall i :: 0 <= i < |hops| && hops[i].nextHop != -1 ==>
      exists k :: 0 <= k < |links| && links[k].neighbourId == hops[i].nextHop
  }

  /** Then every wanted route comes from a table entry and goes through the address of a neighbour. */
  lemma WantedIsVia(links: seq<Link>, n: nat, hops: seq<HopDest>, r: Route) returns (i: int, k: int)
    requires GoodLinks(links, n) && OverNeighbours(links, hops) && r in Wanted(links, hops)
    ensures 0 <= i < |hops| && 0 <= k < |links| && IsVia(links, Filtered(hops), i, k, r)
    ensures hops[i].nextHop == links[k].neighbourId != -1 && IsFirstOf(hops, i)
    ensures r == Route(Ipv4(hops[i].destIp.a, hops[i].destIp.b, hops[i].destIp.c, 0), links[k].neighbourIp, hops[i].metric)
  {
    var f := Filtered(hops);
    i :| 0 <= i < |f| && f[i].nextHop != -1 && r == DeriveRoute(links, f[i]);
    assert f[i] == Reduced(hops[i]);
    FirstIffKept(hops, i);
    k :| 0 <= k < |links| && links[k].neighbourId == hops[i].nextHop;
    DeriveRouteUses(links, n, f[i], k);
  }

  /** There is one metric per gateway and subnet. */
  lemma WantedIsFunctional(links: seq<Link>, n: nat, hops: seq<HopDest>, q: Route, r: Route)
    requires GoodLinks(links, n) && OverNeighbours(links, hops) && q in Wanted(links, hops) && r in Wanted(links, hops)
    requires q.dst == r.dst && q.gateway == r.gateway
    ensures q == r
  {
    var f := Filtered(hops);
    var i, k := WantedIsVia(links, n, hops, q);
    var j, l := WantedIsVia(links, n, hops, r);
    LinkOfAddress(links, n, k, l);
    OneEntryPerPair(ReduceAll(hops), i, j);
  }

  lemma LinkOfAddress(links: seq<Link>, n: nat, k: int, l: int)
    requires GoodLinks(links, n) && 0 <= k < |links| && 0 <= l < |links| && links[k].neighbourIp == links[l].neighbourIp
    ensures k == l
  {
  }

  lemma OneEntryPerPair(hops: seq<HopDest>, i: int, j: int)
    requires 0 <= i < |hops| && 0 <= j < |hops|
    requires WithoutRepeats(hops)[i].nextHop != -1 && SamePair(WithoutRepeats(hops)[i], WithoutRepeats(hops)[j])
    ensures i == j
  {
    PairsKeptOnce(hops);
    if j < i { assert SamePair(WithoutRepeats(hops)[j], WithoutRepeats(hops)[i]); }
  }

  /** No entry before has the same next hop and its destination in the same subnet. */
  ghost predicate IsFirstOf(hops: seq<HopDest>, i: int)
    requires 0 <= i < |hops|
  {
    forall j :: 0 <= j < i && hops[j].nextHop == hops[i].nextHop ==>
      !(hops[j].destIp.a == hops[i].destIp.a && hops[j].destIp.b == hops[i].destIp.b && hops[j].destIp.c == hops[i].destIp.c)
  }

  lemma FirstIffKept(hops: seq<HopDest>, i: int)
    requires 0 <= i < |hops| && hops[i].nextHop != -1
    ensures Filtered(hops)[i] == (if IsFirstOf(hops, i) then Reduced(hops[i]) else Reduced(hops[i]).(nextHop := -1))
  {
    var r := ReduceAll(hops);
    forall j | 0 <= j < i
      ensures SamePair(r[i], r[j]) <==>
              && hops[j].nextHop == hops[i].nextHop && hops[j].destIp.a == hops[i].destIp.a
              && hops[j].destIp.b == hops[i].destIp.b && hops[j].destIp.c == hops[i].destIp.c
    {
      SubnetIs24(hops[i].destIp, hops[j].destIp);
    }
    assert Repeats(r, i) <==> !IsFirstOf(hops, i);
  }

  /** The entry gives the route: it is the first of its next hop and subnet, and its next hop is the neighbour over link k. */
  ghost predicate Asks(links: seq<Link>, hops: seq<HopDest>, i: int, k: int, r: Route) {
    && 0 <= i < |hops| && 0 <= k < |links| && hops[i].nextHop == links[k].neighbourId != -1 && IsFirstOf(hops, i)
    && r == Route(Ipv4(hops[i].destIp.a, hops[i].destIp.b, hops[i].destIp.c, 0), links[k].neighbourIp, hops[i].metric)
  }

  /**
   Exactly which routes a table asks for: for each next hop and /24 subnet one, from the first entry that has them, with
   that entry's metric, through the address of the neighbour.
   */
  lemma WantedIff(links: seq<Link>, n: nat, hops: seq<HopDest>, r: Route)
    requires GoodLinks(links, n) && OverNeighbours(links, hops)
    ensures r in Wanted(links, hops) <==> exists i, k :: Asks(links, hops, i, k, r)
  {
    if r in Wanted(links, hops) {
      var i, k := WantedIsVia(links, n, hops, r);
      assert Asks(links, hops, i, k, r);
    } else if i, k :| Asks(links, hops, i, k, r) {
      FirstIffKept(hops, i);
      DeriveRouteUses(links, n, Filtered(hops)[i], k);
    }
  }

  /** An entry whose next hop is no neighbour becomes the all-zero route. */
  lemma {:induction false} DeriveRouteMisses(links: seq<Link>, h: HopDest)
    requires forall k :: 0 <= k < |links| ==> links[k].neighbourId != h.nextHop
    ensures DeriveRoute(links, h) == Route(Ipv4(0, 0, 0, 0), Ipv4(0, 0, 0, 0), 0)
  {
    if links != [] { DeriveRouteMisses(links[1..], h); }
  }

  /** And no table entry loses its subnet or gateway. */
  lemma WantedIsComplete(links: seq<Link>, n: nat, hops: seq<HopDest>, i: int, k: int) returns (r: Route)
    requires GoodLinks(links, n) && 0 <= i < |hops| && 0 <= k < |links|
    requires hops[i].nextHop == links[k].neighbourId != -1
    ensures r in Wanted(links, hops) && r.gateway == links[k].neighbourIp
    ensures r.dst == Ipv4(hops[i].destIp.a, hops[i].destIp.b, hops[i].destIp.c, 0)
  {
    var f := Filtered(hops);
    PairsKeptOnce(ReduceAll(hops));
    var j :| 0 <= j <= i && SamePair(f[j], ReduceAll(hops)[i]);
    DeriveRouteUses(links, n, f[j], k);
    r := DeriveRoute(links, f[j]);
  }

  ghost predicate IsVia(links: seq<Link>, f: seq<HopDest>, i: int, k: int, r: Route)
    requires 0 <= i < |f| && 0 <= k < |links|
  {
    f[i].nextHop != -1 && f[i].nextHop == links[k].neighbourId && r == Route(f[i].destIp, links[k].neighbourIp, f[i].metric)
  }

  // ---------- The mirror ----------

  ghost function Mirrored(m: seq<Slot>): set<Route> {
    set i | 0 <= i < |m| && m[i].present :: m[i].route
  }

  ghost function SeenIn(m: seq<Slot>): set<Route> {
    set i | 0 <= i < |m| && m[i].present && m[i].seen :: m[i].route
  }

  ghost predicate NoDuplicates(m: seq<Slot>) {
    forall i, j :: 0 <= i < j < |m| && m[i].present && m[j].present ==> m[i].route != m[j].route
  }

  ghost predicate Full(m: seq<Slot>) {
    forall i :: 0 <= i < |m| ==> m[i].present
  }

  lemma MirroredSnoc(init: seq<Slot>, last: Slot)
    ensures Mirrored(init + [last]) == if last.present then Mirrored(init) + {last.route} else Mirrored(init)
  {
    var m := init + [last];
    forall r | r in Mirrored(init) ensures r in Mirrored(m) {
      var i :| 0 <= i < |init| && init[i].present && init[i].route == r;
      assert m[i].present && m[i].route == r;
    }
    assert m[|init|] == last;
  }

  lemma {:induction false} MirrorCard(m: seq<Slot>)
    ensures |Mirrored(m)| <= |m|
    ensures NoDuplicates(m) && Full(m) ==> |Mirrored(m)| == |m|
  {
    if m != [] {
      var init, last := m[..|m| - 1], m[|m| - 1];
      MirrorCard(init);
      MirroredSnoc(init, last);
      assert m == init + [last];
      if NoDuplicates(m) && Full(m) {
        assert last.route !in Mirrored(init);
        assert NoDuplicates(init) && Full(init);
      }
    }
  }

  /** Marking has gone through the routes w: m is the mirror, m0 what it was. */
  ghost predicate Marked(m0: seq<Slot>, m: seq<Slot>, w: set<Route>) {
    && |m| == |m0| && NoDuplicates(m)
    && Mirrored(m0) <= Mirrored(m) <= Mirrored(m0) + w
    && SeenIn(m) == Mirrored(m) * w
    && (Mirrored(m) == Mirrored(m0) + w || Full(m))
  }

  /** After marking, the seen routes are all the wanted ones exactly when old and wanted routes fit together. */
  lemma SeenAllIff(m0: seq<Slot>, m: seq<Slot>, w: set<Route>)
    requires Marked(m0, m, w) && NoDuplicates(m0)
    ensures SeenIn(m) == w <==> |Mirrored(m0) + w| <= |m0|
    ensures Mirrored(m0) * w <= SeenIn(m) <= w
  {
    MirrorCard(m);
    var all := Mirrored(m0) + w;
    if Mirrored(m) != all {
      assert !(all <= Mirrored(m));
      var missing :| missing in all && missing !in Mirrored(m);
      SubsetCard(Mirrored(m), all - {missing});
      assert |all - {missing}| == |all| - 1;
      assert missing in w && missing !in SeenIn(m);
    } else {
      assert SeenIn(m) == w;
    }
  }

  lemma {:induction false} SubsetCard<T>(a: set<T>, b: set<T>)
    requires a <= b
    ensures |a| <= |b|
    ensures |a| == |b| ==> a == b
  {
    assert b == a + (b - a);
    assert |b| == |a| + |b - a|;
  }

  /** What one update does to the mirrored set m and the kernel's set k when w is wanted and the mirror has n slots. */
  ghost predicate Updated(m: set<Route>, k: set<Route>, w: set<Route>, n: nat, m': set<Route>, k': set<Route>) {
    && m * w <= m' <= w
    && (m' == w <==> |m + w| <= n)
    && k' == k + w - (m - w)
  }

  /** Sweeping a fully marked mirror completes an update. */
  lemma SweepUpdates(m0: seq<Slot>, m: seq<Slot>, w: set<Route>, k: set<Route>)
    requires Marked(m0, m, w) && NoDuplicates(m0)
    ensures Updated(Mirrored(m0), k, w, |m0|, SeenIn(m), k + w - (Mirrored(m) - SeenIn(m)))
  {
    SeenAllIff(m0, m, w);
    assert Mirrored(m) - SeenIn(m) == Mirrored(m0) - w;
  }

  // ---------- What updates guarantee ----------

  /** A second update with the same routes completes the mirror however full it was, and after that nothing changes. */
  lemma TwoRoundsConverge(n: nat, w: set<Route>, m0: set<Route>, k0: set<Route>, m1: set<Route>, k1: set<Route>,
                          m2: set<Route>, k2: set<Route>, m3: set<Route>, k3: set<Route>)
    requires |w| <= n
    requires Updated(m0, k0, w, n, m1, k1) && Updated(m1, k1, w, n, m2, k2) && Updated(m2, k2, w, n, m3, k3)
    ensures m2 == w && m3 == m2 && k2 == k1 && k3 == k2
  {
    assert m1 + w == w;
    assert m2 + w == w;
    assert k2 == k1 && k3 == k2;
  }

  /** With mirror and kernel in agreement, one update makes the kernel exact; the mirror follows exactly when all routes fit. */
  lemma ExactReconciliation(n: nat, w: set<Route>, m: set<Route>, m': set<Route>, k': set<Route>)
    requires Updated(m, m, w, n, m', k')
    ensures k' == w
    ensures m' == k' <==> |m + w| <= n
  {
  }

  /** In general the kernel ends up exact exactly when the mirror remembers every route the kernel should drop. */
  lemma KernelExactIff(n: nat, w: set<Route>, m: set<Route>, k: set<Route>, m': set<Route>, k': set<Route>)
    requires Updated(m, k, w, n, m', k')
    ensures k' == w <==> k - w <= m
  {
    if k' == w {
      forall r | r in k - w ensures r in m { assert r !in k'; }
    }
  }

  /**
   From agreement, an update installs a wanted route that the mirror does not remember exactly when old and wanted routes
   do not fit in the slots together.
   */
  lemma OverflowLeaks(n: nat, w: set<Route>, m: set<Route>, m1: set<Route>, k1: set<Route>)
    requires Updated(m, m, w, n, m1, k1)
    ensures |m + w| > n <==> exists r :: Forgotten(r, w, m1, k1)
  {
    if |m + w| > n {
      assert !(w <= m1);
      var r :| r in w && r !in m1;
      assert Forgotten(r, w, m1, k1);
    }
  }

  ghost predicate Forgotten(r: Route, w: set<Route>, m: set<Route>, k: set<Route>) {
    r in w && r in k && r !in m
  }

  /** Such a route stays in the kernel through any number of updates that do not want it, so that none makes it exact. */
  lemma {:induction false} LeakPersists(r: Route, n: nat, ws: seq<set<Route>>, ms: seq<set<Route>>, ks: seq<set<Route>>)
    requires |ms| == |ks| == |ws| + 1 && r in ks[0] && r !in ms[0]
    requires forall i :: 0 <= i < |ws| ==> r !in ws[i] && Updated(ms[i], ks[i], ws[i], n, ms[i + 1], ks[i + 1])
    ensures r in ks[|ws|] && r !in ms[|ws|]
    ensures |ws| > 0 ==> ks[|ws|] != ws[|ws| - 1]
  {
    if |ws| > 0 {
      var i := |ws| - 1;
      LeakPersists(r, n, ws[..i], ms[..i + 1], ks[..i + 1]);
      assert Updated(ms[i], ks[i], ws[i], n, ms[i + 1], ks[i + 1]);
    }
  }

  // ---------- The operations, in place ----------

  class RouteMirror {
    const currRoutes: array<Slot>
    // the routing table behind ioctl, as the set of routes added and not deleted
    var kernel: set<Route>

    constructor (n: nat)
      ensures currRoutes.Length == n && fresh(currRoutes) && kernel == {}
      ensures Mirrored(currRoutes[..]) == {} && NoDuplicates(currRoutes[..])
    {
      currRoutes := new Slot[n](_ => EMPTY_SLOT);
      kernel := {};
    }

    method MarkRoutesUnseen()
      requires NoDuplicates(currRoutes[..])
      modifies currRoutes
      ensures Marked(old(currRoutes[..]), currRoutes[..], {})
      ensures Mirrored(currRoutes[..]) == Mirrored(old(currRoutes[..]))
    {
      for i := 0 to currRoutes.Length
        invariant forall k :: 0 <= k < i ==> currRoutes[k] == old(currRoutes[k]).(seen := false)
        invariant forall k :: i <= k < currRoutes.Length ==> currRoutes[k] == old(currRoutes[k])
      {
        currRoutes[i] := currRoutes[i].(seen := false);
      }
      ghost var m0, m := old(currRoutes[..]), currRoutes[..];
      assert forall k :: 0 <= k < |m| ==> m[k] == m0[k].(seen := false);
      assert Mirrored(m) == Mirrored(m0);
      assert SeenIn(m) == {};
    }

    /** Takes the first free slot; without one the route is dropped silently. */
    method AddToCurrRoutes(rt: Slot) returns (ghost at: int)
      modifies currRoutes
      ensures -1 <= at < currRoutes.Length
      ensures at == -1 ==> Full(old(currRoutes[..])) && currRoutes[..] == old(currRoutes[..])
      ensures at >= 0 ==> !old(currRoutes[at]).present && currRoutes[..] == old(currRoutes[..])[at := rt]
    {
      for i := 0 to currRoutes.Length
        invariant currRoutes[..] == old(currRoutes[..])
        invariant forall k :: 0 <= k < i ==> currRoutes[k].present
      {
        if !currRoutes[i].present {
          currRoutes[i] := rt;
          return i;
        }
      }
      return -1;
    }

    /** Marks the route as seen, or adds it if the mirror does not have it. */
    method MarkRouteSeen(rt: Route, ghost m0: seq<Slot>, ghost w: set<Route>)
      requires Marked(m0, currRoutes[..], w)
      modifies currRoutes
      ensures Marked(m0, currRoutes[..], w + {rt})
    {
      var seen := false;
      ghost var m := currRoutes[..];
      for i := 0 to currRoutes.Length
        invariant currRoutes[..] == m && !seen
        invariant forall k :: 0 <= k < i ==> !(m[k].present && m[k].route == rt)
      {
        if currRoutes[i].present && currRoutes[i].route == rt {
          currRoutes[i] := currRoutes[i].(seen := true);
          seen := true;
          SeeKeepsMarked(m0, m, w, i);
          break;
        }
      }
      if !seen {
        assert rt !in Mirrored(m);
        ghost var at := AddToCurrRoutes(Slot(rt, true, true));
        AddKeepsMarked(m0, m, w, rt, at);
      }
    }

    /** Deletes what was not seen from the kernel and clears its slot. */
    method RemoveMarkedRoutes()
      requires NoDuplicates(currRoutes[..])
      modifies this`kernel, currRoutes
      ensures Mirrored(currRoutes[..]) == SeenIn(old(currRoutes[..])) && NoDuplicates(currRoutes[..])
      ensures kernel == old(kernel) - (Mirrored(old(currRoutes[..])) - SeenIn(old(currRoutes[..])))
    {
      ghost var m := currRoutes[..];
      for i := 0 to currRoutes.Length
        invariant forall k :: 0 <= k < i ==> currRoutes[k] == if m[k].present && !m[k].seen then EMPTY_SLOT else m[k]
        invariant forall k :: i <= k < currRoutes.Length ==> currRoutes[k] == m[k]
        invariant kernel == old(kernel) - UnseenBefore(m, i)
      {
        if currRoutes[i].present && !currRoutes[i].seen {
          kernel := kernel - {currRoutes[i].route};
          currRoutes[i] := EMPTY_SLOT;
        }
      }
      ghost var m' := currRoutes[..];
      assert forall k :: 0 <= k < |m| ==> m'[k] == if m[k].present && !m[k].seen then EMPTY_SLOT else m[k];
      assert Mirrored(m') == SeenIn(m);
      assert UnseenBefore(m, |m|) == Mirrored(m) - SeenIn(m);
    }

    method AddRoutes(ghost links: seq<Link>, hops: array<HopDest>, routes: array<Route>)
      requires routes.Length == hops.Length
      requires forall i :: 0 <= i < hops.Length && hops[i].nextHop != -1 ==> routes[i] == DeriveRoute(links, hops[i])
      modifies this`kernel
      ensures kernel == old(kernel) + WantedBefore(links, hops[..], hops.Length)
    {
      for i := 0 to hops.Length
        invariant kernel == old(kernel) + WantedBefore(links, hops[..], i)
      {
        assert WantedBefore(links, hops[..], i + 1) ==
               WantedBefore(links, hops[..], i) + if hops[i].nextHop != -1 then {routes[i]} else {};
        if hops[i].nextHop != -1 {
          kernel := kernel + {routes[i]};
        }
      }
    }

    method MarkWanted(ghost links: seq<Link>, hops: array<HopDest>, routes: array<Route>, ghost m0: seq<Slot>)
      requires routes.Length == hops.Length && Marked(m0, currRoutes[..], {})
      requires forall i :: 0 <= i < hops.Length && hops[i].nextHop != -1 ==> routes[i] == DeriveRoute(links, hops[i])
      modifies currRoutes
      ensures Marked(m0, currRoutes[..], WantedBefore(links, hops[..], hops.Length))
    {
      assert WantedBefore(links, hops[..], 0) == {};
      for i := 0 to hops.Length
        invariant Marked(m0, currRoutes[..], WantedBefore(links, hops[..], i))
      {
        assert WantedBefore(links, hops[..], i + 1) ==
               WantedBefore(links, hops[..], i) + if hops[i].nextHop != -1 then {routes[i]} else {};
        if hops[i].nextHop != -1 {
          MarkRouteSeen(routes[i], m0, WantedBefore(links, hops[..], i));
        }
      }
    }

    /** Adds the wanted routes, marks, and sweeps. `links` are the router's own. */
    method UpdateRoutingTable(links: seq<Link>, nextHops: array<HopDest>)
      requires nextHops.Length == currRoutes.Length && NoDuplicates(currRoutes[..])
      modifies this`kernel, currRoutes
      ensures NoDuplicates(currRoutes[..])
      ensures Updated(old(Mirrored(currRoutes[..])), old(kernel), Wanted(links, nextHops[..]), currRoutes.Length,
                      Mirrored(currRoutes[..]), kernel)
      ensures |Wanted(links, nextHops[..])| <= currRoutes.Length
    {
      ghost var w := Wanted(links, nextHops[..]);
      ghost var m0 := currRoutes[..];
      var hops := new HopDest[nextHops.Length](i requires 0 <= i < nextHops.Length reads nextHops => nextHops[i]);
      assert hops[..] == nextHops[..];
      FilterNextHops(hops);
      var routes := DeriveRtentries(links, hops);
      ghost var f := hops[..];
      AddRoutes(links, hops, routes);
      MarkRoutesUnseen();
      MarkWanted(links, hops, routes, m0);
      SweepUpdates(m0, currRoutes[..], w, old(kernel));
      WantedFits(links, nextHops[..]);
      RemoveMarkedRoutes();
    }
  }

  ghost function UnseenBefore(m: seq<Slot>, i: int): set<Route>
    requires i <= |m|
  {
    set k | 0 <= k < i && m[k].present && !m[k].seen :: m[k].route
  }

  ghost function WantedBefore(links: seq<Link>, f: seq<HopDest>, n: int): set<Route>
    requires n <= |f|
  {
    set i | 0 <= i < n && f[i].nextHop != -1 :: DeriveRoute(links, f[i])
  }

  lemma WantedFits(links: seq<Link>, hops: seq<HopDest>)
    ensures |Wanted(links, hops)| <= |hops|
  {
    WantedBeforeFits(links, Filtered(hops), |hops|);
  }

  lemma {:induction false} WantedBeforeFits(links: seq<Link>, f: seq<HopDest>, n: nat)
    requires n <= |f|
    ensures |WantedBefore(links, f, n)| <= n
  {
    if n > 0 {
      WantedBeforeFits(links, f, n - 1);
      assert WantedBefore(links, f, n) ==
             WantedBefore(links, f, n - 1) + if f[n - 1].nextHop != -1 then {DeriveRoute(links, f[n - 1])} else {};
    }
  }

  lemma SeeKeepsMarked(m0: seq<Slot>, m: seq<Slot>, w: set<Route>, i: int)
    requires Marked(m0, m, w) && 0 <= i < |m| && m[i].present
    ensures Marked(m0, m[i := m[i].(seen := true)], w + {m[i].route})
  {
    var m' := m[i := m[i].(seen := true)];
    assert Mirrored(m') == Mirrored(m) by {
      forall r | r in Mirrored(m) ensures r in Mirrored(m') {
        var k :| 0 <= k < |m| && m[k].present && m[k].route == r;
        assert m'[k].present && m'[k].route == r;
      }
    }
    assert SeenIn(m') == SeenIn(m) + {m[i].route} by {
      assert m'[i].route == m[i].route;
      forall r | r in SeenIn(m) ensures r in SeenIn(m') {
        var k :| 0 <= k < |m| && m[k].present && m[k].seen && m[k].route == r;
        assert m'[k].present && m'[k].seen && m'[k].route == r;
      }
    }
    assert m[i].route in Mirrored(m);
  }

  lemma AddKeepsMarked(m0: seq<Slot>, m: seq<Slot>, w: set<Route>, rt: Route, at: int)
    requires Marked(m0, m, w) && rt !in Mirrored(m) && -1 <= at < |m|
    requires if at == -1 then Full(m) else !m[at].present
    ensures Marked(m0, if at == -1 then m else m[at := Slot(rt, true, true)], w + {rt})
  {
    if at >= 0 {
      var m' := m[at := Slot(rt, true, true)];
      assert m'[at].route == rt;
      assert Mirrored(m') == Mirrored(m) + {rt} by {
        forall r | r in Mirrored(m) ensures r in Mirrored(m') {
          var k :| 0 <= k < |m| && m[k].present && m[k].route == r;
          assert m'[k].present && m'[k].route == r;
        }
      }
      assert SeenIn(m') == SeenIn(m) + {rt} by {
        forall r | r in SeenIn(m) ensures r in SeenIn(m') {
          var k :| 0 <= k < |m| && m[k].present && m[k].seen && m[k].route == r;
          assert m'[k].present && m'[k].seen && m'[k].route == r;
        }
      }
      forall k | 0 <= k < |m| && m[k].present ensures m[k].route != rt { assert m[k].route in Mirrored(m); }
    }
  }

  method ReduceRoutesToSubnets(hops: array<HopDest>)
    modifies hops
    ensures hops[..] == ReduceAll(old(hops[..]))
    ensures forall i :: 0 <= i < hops.Length ==>
              hops[i] == if old(hops[i]).nextHop == -1 then old(hops[i])
                         else var ip := old(hops[i]).destIp; old(hops[i]).(destIp := Ipv4(ip.a, ip.b, ip.c, 0))
  {
    for i := 0 to hops.Length
      invariant forall k :: 0 <= k < i ==> hops[k] == Reduced(old(hops[k]))
      invariant forall k :: i <= k < hops.Length ==> hops[k] == old(hops[k])
    {
      if hops[i].nextHop != -1 {
        hops[i] := hops[i].(destIp := Subnet(hops[i].destIp));
      }
    }
  }

  /** Compares with entries that may themselves have been invalidated already; the first of each pair never is. */
  method RemoveDuplicates(hops: array<HopDest>)
    modifies hops
    ensures hops[..] == WithoutRepeats(old(hops[..]))
  {
    ghost var h := hops[..];
    ghost var r := WithoutRepeats(h);
    for i := 0 to hops.Length
      invariant forall k :: 0 <= k < i ==> hops[k] == r[k]
      invariant forall k :: i <= k < hops.Length ==> hops[k] == h[k]
    {
      if h[i].nextHop != -1 && Repeats(h, i) {
        ghost var j := FirstOfPair(h, i);
        assert j < i && hops[j] == h[j];
      }
      for j := 0 to i
        invariant forall k :: 0 <= k < i ==> hops[k] == r[k]
        invariant forall k :: i <= k < hops.Length ==> hops[k] == h[k]
        invariant forall k :: 0 <= k < j ==> !SamePair(h[i], hops[k])
      {
        if hops[i].nextHop == hops[j].nextHop && hops[i].destIp == hops[j].destIp {
          assert h[i].nextHop != -1 ==> SamePair(h[i], h[j]);
          hops[i] := hops[i].(nextHop := -1);
          assert hops[i] == r[i];
          break;
        }
      }
      assert hops[i] == r[i];
    }
  }

  method FilterNextHops(hops: array<HopDest>)
    modifies hops
    ensures hops[..] == Filtered(old(hops[..]))
  {
    ReduceRoutesToSubnets(hops);
    RemoveDuplicates(hops);
  }

  method DeriveRtentries(links: seq<Link>, hops: array<HopDest>) returns (routes: array<Route>)
    ensures fresh(routes) && routes.Length == hops.Length
    ensures forall i :: 0 <= i < hops.Length && hops[i].nextHop != -1 ==> routes[i] == DeriveRoute(links, hops[i])
  {
    routes := new Route[hops.Length](_ => ZERO_ROUTE);
    for i := 0 to hops.Length
      invariant forall k :: 0 <= k < i && hops[k].nextHop != -1 ==> routes[k] == DeriveRoute(links, hops[k])
      invariant forall k :: i <= k < routes.Length ==> routes[k] == ZERO_ROUTE
    {
      if hops[i].nextHop == -1 {
        continue;
      }
      for n := 0 to |links|
        invariant forall k :: 0 <= k < i && hops[k].nextHop != -1 ==> routes[k] == DeriveRoute(links, hops[k])
        invariant forall k :: i <= k < routes.Length ==> routes[k] == ZERO_ROUTE
        invariant DeriveRoute(links, hops[i]) == DeriveRoute(links[n..], hops[i])
      {
        if links[n].neighbourId == hops[i].nextHop {
          routes[i] := Route(hops[i].destIp, links[n].neighbourIp, hops[i].metric);
          break;
        }
      }
    }
  }
}
