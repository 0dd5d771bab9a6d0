/** Which routers a flooded record reaches when nothing is lost. */
module Coverage {
  import opened Network
  import opened Database
  import opened Protocol
  import opened Flooding

  /** The link leads to a router that has a link back, under the address the first link sends from. */
  ghost predicate WiredLink(s: System, a: int, i: int)
    requires 0 <= a < |s.routers| && 0 <= i < |s.routers[a].me.links|
  {
    var l := s.routers[a].me.links[i];
    && 1 <= l.neighbourId <= |s.routers| && l.neighbourIp != NO_IP
    && exists j :: BackLink(s, a, l.neighbourId, l.sourceIp, j)
  }

  /** Link j of the router with id `b` leads to router a and bears the address `source`. */
  ghost predicate BackLink(s: System, a: int, b: int, source: Ipv4, j: int)
    requires 1 <= b <= |s.routers|
  {
    && 0 <= j < |s.routers[b - 1].me.links|
    && s.routers[b - 1].me.links[j].neighbourId == a + 1 && s.routers[b - 1].me.links[j].neighbourIp == source
  }

  /** Links are symmetric and addressed consistently. */
  ghost predicate Wired(s: System) {
    forall a, i :: 0 <= a < |s.routers| && 0 <= i < |s.routers[a].me.links| ==> WiredLink(s, a, i)
  }

  ghost predicate Adjacent(s: System, a: int, b: int)
    requires 0 <= a < |s.routers|
  {
    exists i :: 0 <= i < |s.routers[a].me.links| && s.routers[a].me.links[i].neighbourId == b + 1
  }

  /** Router r would take the record as news. */
  ghost predicate Willing(s: System, r: int, lsa: Node)
    requires 0 <= r < |s.routers|
  {
    1 <= lsa.id <= |s.routers[r].graph| && Accepts(s.routers[r].graph[lsa.id - 1], lsa)
  }

  /** r is n hops from the origin over routers that would take the record as news, itself included. */
  ghost predicate WillingIn(s: System, lsa: Node, r: int, n: nat)
    decreases n
  {
    0 <= r < |s.routers| &&
    if n == 0 then r + 1 == lsa.id
    else r + 1 != lsa.id && Willing(s, r, lsa) && exists a :: WillingIn(s, lsa, a, n - 1) && Adjacent(s, a, r)
  }

  ghost predicate Reaches(s: System, lsa: Node, r: int) {
    exists n :: WillingIn(s, lsa, r, n)
  }

  /** Router r's entry for the origin is the flooded record itself. */
  ghost predicate Holds(s: System, r: int, lsa: Node)
    requires 0 <= r < |s.routers|
  {
    1 <= lsa.id <= |s.routers[r].graph| && s.routers[r].graph[lsa.id - 1] == lsa
  }

  ghost predicate IsCopy(p: Packet, lsa: Node) { p.body == RouterLsa(lsa) }

  /** The origin has just sent `lsa` to all its neighbours; nothing else in flight bears on its entries, and nobody has it. */
  ghost predicate JustSent(s: System, lsa: Node) {
    && Sane(s) && Wired(s) && 1 <= lsa.id <= |s.routers| && Genuine(s.past, lsa)
    && (forall k :: 0 <= k < |s.net| ==> LoneCopy(s, lsa, {}, s.net[k]))
    && (forall a, i :: 0 <= a < |s.routers| && a + 1 == lsa.id && 0 <= i < |s.routers[a].me.links| ==>
          Served(s, lsa, {}, s.net, a, i))
    && (forall r :: 0 <= r < |s.routers| && r + 1 != lsa.id ==> !Holds(s, r, lsa))
  }

  /**
   A router LSA of the flooded record's origin is that record, sent by the origin or a router in A. Whole graphs do not
   hold a seen entry for the origin, and there are no requests, which could be answered with one that does.
   */
  ghost predicate LoneCopy(s0: System, lsa: Node, A: set<int>, p: Packet)
    requires 1 <= lsa.id <= |s0.routers|
  {
    match p.body
    case RouterLsa(other) =>
      other.id == lsa.id ==> other == lsa && exists a, i :: SentOver(s0, lsa, A, p, a, i)
    case NetworkLsa(graph) => lsa.id <= |graph| && graph[lsa.id - 1].state != Seen
    case NetworkRequest => false
  }

  ghost predicate SentOver(s0: System, lsa: Node, A: set<int>, p: Packet, a: int, i: int) {
    && 0 <= a < |s0.routers| && (a + 1 == lsa.id || a in A)
    && 0 <= i < |s0.routers[a].me.links|
    && p.to == s0.routers[a].me.links[i].neighbourId && p.source == s0.routers[a].me.links[i].sourceIp
  }

  /** The neighbour over link i of router a has the record, has no use for it, or has a copy on its way. */
  ghost predicate Served(s0: System, lsa: Node, A: set<int>, net: seq<Packet>, a: int, i: int)
    requires 0 <= a < |s0.routers| && 0 <= i < |s0.routers[a].me.links|
  {
    var b := s0.routers[a].me.links[i].neighbourId - 1;
    0 <= b < |s0.routers| &&
    (b + 1 == lsa.id || b in A || !Willing(s0, b, lsa) || exists k :: 0 <= k < |net| && net[k].to == b + 1 && IsCopy(net[k], lsa))
  }

  /** What has become of router r: A are the routers that have accepted the record since s0. */
  ghost predicate Progress(s0: System, s: System, lsa: Node, A: set<int>, r: int)
    requires 0 <= r < |s0.routers| == |s.routers|
  {
    && SameWiring(s.routers[r].me, s0.routers[r].me) && |s.routers[r].graph| == |s0.routers[r].graph|
    && (r in A ==> r + 1 != lsa.id && Holds(s, r, lsa) && Willing(s0, r, lsa) && Reaches(s0, lsa, r))
    && (r !in A && r + 1 != lsa.id ==>
          !Holds(s, r, lsa) && if Willing(s0, r, lsa) then Willing(s, r, lsa) else !Willing(s, r, lsa))
  }

  ghost predicate Spreading(s0: System, s: System, lsa: Node, A: set<int>) {
    && JustSent(s0, lsa) && Sane(s) && |s.routers| == |s0.routers| && Genuine(s.past, lsa)
    && (forall r :: 0 <= r < |s.routers| ==> Progress(s0, s, lsa, A, r))
    && (forall k :: 0 <= k < |s.net| ==> LoneCopy(s0, lsa, A, s.net[k]))
    && (forall a, i :: 0 <= a < |s.routers| && (a + 1 == lsa.id || a in A) && 0 <= i < |s0.routers[a].me.links| ==>
          Served(s0, lsa, A, s.net, a, i))
    && (forall r :: r in A ==> 0 <= r < |s.routers|)
  }

  /**
   No copy is lost, the origin sends no other record, and nobody restarts. Other packets may be lost, the others send
   their records, and all, the origin included, store new records of their own.
   */
  ghost predicate Undisturbed(s: System, step: Step, lsa: Node) {
    match step
    case Deliver(_) => true
    case SendOwn(r, _) => r + 1 != lsa.id
    case StoreOwnRecord(_, _) => true
    case Lose(k) => k < |s.net| && !IsCopy(s.net[k], lsa)
    case Restart(_, _) => false
  }

  ghost predicate UndisturbedRun(s: System, steps: seq<Step>, s': System, lsa: Node)
    requires Sane(s)
    decreases |steps|
  {
    if steps == [] then s' == s
    else
      && Enabled(s, steps[0]) && Undisturbed(s, steps[0], lsa)
      && (StepKeepsSane(s, steps[0]); UndisturbedRun(Apply(s, steps[0]), steps[1..], s', lsa))
  }

  // ---------- Entries under other records' merges ----------

  /** An entry that was left alone, or became opaque. */
  ghost predicate KeptOrMarked(e: Node, e': Node) {
    e' == e || (e.state == Unseen && e'.state == Opaque)
  }

  lemma KeptKeepsWillingness(e: Node, e': Node, lsa: Node)
    requires KeptOrMarked(e, e') && lsa.state == Seen
    ensures e == lsa <==> e' == lsa
    ensures Accepts(e, lsa) <==> Accepts(e', lsa)
  {
  }

  /** Router q's database changes without touching its entry for the origin. */
  lemma KeptKeepsProgress(s0: System, s: System, s': System, lsa: Node, A: set<int>, r: int)
    requires 0 <= r < |s0.routers| == |s.routers| == |s'.routers| && Progress(s0, s, lsa, A, r) && lsa.state == Seen
    requires 1 <= lsa.id <= |s.routers[r].graph| == |s'.routers[r].graph|
    requires SameWiring(s'.routers[r].me, s.routers[r].me)
    requires r + 1 != lsa.id ==> KeptOrMarked(s.routers[r].graph[lsa.id - 1], s'.routers[r].graph[lsa.id - 1])
    ensures Progress(s0, s', lsa, A, r)
  {
    if r + 1 != lsa.id {
      KeptKeepsWillingness(s.routers[r].graph[lsa.id - 1], s'.routers[r].graph[lsa.id - 1], lsa);
    }
  }

  /** Packets leave the network only towards routers that are then served, and copies never vanish otherwise. */
  lemma StillServed(s0: System, lsa: Node, A: set<int>, A': set<int>, net: seq<Packet>, net': seq<Packet>, a: int,
            i: int)
    requires 0 <= a < |s0.routers| && 0 <= i < |s0.routers[a].me.links| && Served(s0, lsa, A, net, a, i)
    requires A <= A'
    requires forall p :: p in net && IsCopy(p, lsa) ==>
               p in net' || (1 <= p.to <= |s0.routers| && (p.to == lsa.id || p.to - 1 in A' || !Willing(s0, p.to - 1, lsa)))
    ensures Served(s0, lsa, A', net', a, i)
  {
    var b := s0.routers[a].me.links[i].neighbourId - 1;
    if exists k :: 0 <= k < |net| && net[k].to == b + 1 && IsCopy(net[k], lsa) {
      var k :| 0 <= k < |net| && net[k].to == b + 1 && IsCopy(net[k], lsa);
      if net[k] in net' {
        var j :| 0 <= j < |net'| && net'[j] == net[k];
      }
    }
  }

  lemma MoreSenders(s0: System, lsa: Node, A: set<int>, A': set<int>, p: Packet)
    requires 1 <= lsa.id <= |s0.routers| && LoneCopy(s0, lsa, A, p) && A <= A'
    ensures LoneCopy(s0, lsa, A', p)
  {
    if p.body.RouterLsa? && p.body.lsa.id == lsa.id {
      var a, i :| SentOver(s0, lsa, A, p, a, i);
      assert SentOver(s0, lsa, A', p, a, i);
    }
  }

  /** Copies that a router sends over its links are as the invariant wants them. */
  lemma CopiesAreLone(s0: System, s: System, lsa: Node, A: set<int>, a: int, links: seq<Link>, other: Node,
            except: Ipv4)
    requires 1 <= lsa.id <= |s0.routers| && 0 <= a < |s0.routers|
    requires |links| == |s0.routers[a].me.links|
    requires forall i :: 0 <= i < |links| ==> links[i].neighbourId == s0.routers[a].me.links[i].neighbourId &&
                                              links[i].sourceIp == s0.routers[a].me.links[i].sourceIp
    requires other.id == lsa.id ==> other == lsa && (a + 1 == lsa.id || a in A)
    ensures forall p :: p in Copies(links, RouterLsa(other), except) ==> LoneCopy(s0, lsa, A, p)
  {
    var out := Copies(links, RouterLsa(other), except);
    forall p | p in out ensures LoneCopy(s0, lsa, A, p) {
      var i :| 0 <= i < |out| && out[i] == p;
      var k := LinkPerCopy(links, RouterLsa(other), except, i);
      if other.id == lsa.id { assert SentOver(s0, lsa, A, p, a, k); }
    }
  }

  // ---------- Steps ----------

  /** What a step has to establish for the invariant to go on holding. */
  lemma SpreadOn(s0: System, s: System, s': System, lsa: Node, A: set<int>, A': set<int>)
    requires Spreading(s0, s, lsa, A) && Sane(s') && |s'.routers| == |s.routers| && A <= A'
    requires forall r :: r in A' ==> 0 <= r < |s.routers|
    requires forall i :: 0 <= i < |s.past| ==> s.past[i] <= s'.past[i]
    requires forall r :: 0 <= r < |s.routers| ==> Progress(s0, s', lsa, A', r)
    requires forall p :: p in s'.net ==> p in s.net || LoneCopy(s0, lsa, A', p)
    requires forall p :: p in s.net && IsCopy(p, lsa) ==>
               p in s'.net || (1 <= p.to <= |s0.routers| && (p.to == lsa.id || p.to - 1 in A' || !Willing(s0, p.to - 1, lsa)))
    requires forall a, i :: a in A' && a !in A && 0 <= i < |s0.routers[a].me.links| ==> Served(s0, lsa, A', s'.net, a, i)
    ensures Spreading(s0, s', lsa, A')
  {
    forall k | 0 <= k < |s'.net| ensures LoneCopy(s0, lsa, A', s'.net[k]) {
      var p := s'.net[k];
      if p in s.net {
        var j :| 0 <= j < |s.net| && s.net[j] == p;
        assert LoneCopy(s0, lsa, A, s.net[j]);
        MoreSenders(s0, lsa, A, A', p);
      }
    }
    forall a, i | 0 <= a < |s.routers| && (a + 1 == lsa.id || a in A') && 0 <= i < |s0.routers[a].me.links|
      ensures Served(s0, lsa, A', s'.net, a, i)
    {
      if a + 1 == lsa.id || a in A {
        assert Served(s0, lsa, A, s.net, a, i);
        StillServed(s0, lsa, A, A', s.net, s'.net, a, i);
      }
    }
  }

  /** Facts about the flooded record that every case uses. */
  lemma FloodedIsSeen(s: System, lsa: Node, r: int)
    requires Sane(s) && Genuine(s.past, lsa) && 0 <= r < |s.routers|
    ensures lsa.state == Seen && 1 <= lsa.id <= |s.routers| == |s.routers[r].graph|
    ensures s.routers[r].me.id == r + 1 && GoodLinks(s.routers[r].me.links, |s.routers|)
  {
    GenuineIsGood(s, lsa);
    assert GoodRouter(s, r);
    assert GoodNode(s.routers[r].me, |s.routers|);
  }

  lemma OthersProgress(s0: System, s: System, s': System, lsa: Node, A: set<int>, q: int, router: Router)
    requires Spreading(s0, s, lsa, A) && 0 <= q < |s.routers| && s'.routers == s.routers[q := router]
    ensures forall r :: 0 <= r < |s.routers| && r != q ==> Progress(s0, s', lsa, A, r)
  {
    forall r | 0 <= r < |s.routers| && r != q ensures Progress(s0, s', lsa, A, r) {
      assert Progress(s0, s, lsa, A, r);
    }
  }

  /** A router stores a new record of its own, or one other than the origin sends it. */
  lemma OtherOriginates(s0: System, s: System, step: Step, lsa: Node, A: set<int>)
    requires Spreading(s0, s, lsa, A) && Enabled(s, step) && Undisturbed(s, step, lsa) && (step.SendOwn? || step.StoreOwnRecord?)
    ensures Spreading(s0, Apply(s, step), lsa, A)
  {
    var s' := Apply(s, step);
    StepKeepsSane(s, step);
    var q := step.r;
    FloodedIsSeen(s, lsa, q);
    FloodedIsSeen(s', lsa, q);
    OwnRecordInRange(s, q, step.me);
    assert Progress(s0, s, lsa, A, q);
    KeptKeepsProgress(s0, s, s', lsa, A, q);
    OthersProgress(s0, s, s', lsa, A, q, s'.routers[q]);
    if step.SendOwn? {
      CopiesAreLone(s0, s, lsa, A, q, step.me.links, step.me, NO_IP);
    }
    SpreadOn(s0, s, s', lsa, A, A);
  }

  lemma TakenOut(net: seq<Packet>, k: nat)
    requires k < |net|
    ensures forall p :: p in net ==> p == net[k] || p in Without(net, k)
    ensures forall p :: p in Without(net, k) ==> p in net
  {
    forall p | p in net && p != net[k] ensures p in Without(net, k) {
      var j :| 0 <= j < |net| && net[j] == p;
      assert Without(net, k)[if j < k then j else j - 1] == p;
    }
  }

  /** A packet is delivered that does not make its receiver accept the flooded record. */
  lemma DeliveredElse(s0: System, s: System, k: nat, lsa: Node, A: set<int>)
    requires Spreading(s0, s, lsa, A) && k < |s.net|
    requires IsCopy(s.net[k], lsa) ==>
               s.net[k].to == lsa.id || (1 <= s.net[k].to <= |s.routers| && (s.net[k].to - 1 in A || !Willing(s0, s.net[k].to - 1, lsa)))
    ensures Spreading(s0, Apply(s, Deliver(k)), lsa, A)
  {
    var s' := Apply(s, Deliver(k));
    var p := s.net[k];
    StepKeepsSane(s, Deliver(k));
    InFlightDeliverable(s, k);
    var q := p.to - 1;
    FloodedIsSeen(s, lsa, q);
    assert LoneCopy(s0, lsa, A, p) && Progress(s0, s, lsa, A, q);
    KeptKeepsProgress(s0, s, s', lsa, A, q);
    OthersProgress(s0, s, s', lsa, A, q, s'.routers[q]);
    if IsCopy(p, lsa) && p.to != lsa.id {
      assert !Willing(s, q, lsa);
    } else if p.body.RouterLsa? {
      CopiesAreLone(s0, s, lsa, A, q, s.routers[q].me.links, p.body.lsa, p.source);
    }
    TakenOut(s.net, k);
    SpreadOn(s0, s, s', lsa, A, A);
  }

  /** The link that an accepting router leaves out leads back to the sender. */
  lemma SkippedIsSender(s0: System, s: System, lsa: Node, A: set<int>, p: Packet, a: int, i: int, b: int, j: int)
    requires Sane(s0) && Wired(s0) && SentOver(s0, lsa, A, p, a, i) && p.to == b + 1 && 0 <= b < |s0.routers|
    requires 0 <= j < |s0.routers[b].me.links| && s0.routers[b].me.links[j].neighbourIp == p.source
    ensures s0.routers[b].me.links[j].neighbourId == a + 1
  {
    assert WiredLink(s0, a, i);
    var j' :| BackLink(s0, a, p.to, p.source, j');
    assert GoodRouter(s0, b);
    assert GoodNode(s0.routers[b].me, |s0.routers|);
    assert j' == j;
  }

  /** A packet other than a copy is lost. */
  lemma OtherLost(s0: System, s: System, k: nat, lsa: Node, A: set<int>)
    requires Spreading(s0, s, lsa, A) && k < |s.net| && !IsCopy(s.net[k], lsa)
    ensures Spreading(s0, Apply(s, Lose(k)), lsa, A)
  {
    var s' := Apply(s, Lose(k));
    StepKeepsSane(s, Lose(k));
    forall r | 0 <= r < |s.routers| ensures Progress(s0, s', lsa, A, r) {
      assert Progress(s0, s, lsa, A, r);
    }
    TakenOut(s.net, k);
    SpreadOn(s0, s, s', lsa, A, A);
  }

  ghost predicate IsFirstCopy(s0: System, s: System, k: nat, lsa: Node, A: set<int>) {
    && k < |s.net| && IsCopy(s.net[k], lsa) && |s.routers| == |s0.routers|
    && s.net[k].to != lsa.id && 1 <= s.net[k].to <= |s.routers|
    && s.net[k].to - 1 !in A && Willing(s0, s.net[k].to - 1, lsa)
  }

  lemma FirstCopyProgress(s0: System, s: System, k: nat, lsa: Node, A: set<int>, q: int)
    requires Spreading(s0, s, lsa, A) && IsFirstCopy(s0, s, k, lsa, A) && q == s.net[k].to - 1
    requires Reaches(s0, lsa, q)
    ensures Willing(s, q, lsa)
    ensures forall r :: 0 <= r < |s.routers| ==> Progress(s0, Apply(s, Deliver(k)), lsa, A + {q}, r)
  {
    var s' := Apply(s, Deliver(k));
    InFlightDeliverable(s, k);
    FloodedIsSeen(s, lsa, q);
    assert Progress(s0, s, lsa, A, q);
    OthersProgress(s0, s, s', lsa, A, q, s'.routers[q]);
    forall r | 0 <= r < |s.routers| ensures Progress(s0, s', lsa, A + {q}, r) {
      if r != q { assert Progress(s0, s', lsa, A, r); }
    }
  }

  lemma FirstCopyNet(s0: System, s: System, k: nat, lsa: Node, A: set<int>, q: int)
    requires Sane(s) && JustSent(s0, lsa) && IsFirstCopy(s0, s, k, lsa, A) && q == s.net[k].to - 1
    requires Genuine(s.past, lsa) && Willing(s, q, lsa) && SameWiring(s.routers[q].me, s0.routers[q].me)
    ensures var s' := Apply(s, Deliver(k));
            && (forall p :: p in s'.net ==> p in s.net || LoneCopy(s0, lsa, A + {q}, p))
            && (forall p :: p in s.net && p != s.net[k] ==> p in s'.net)
            && (forall p :: p in Copies(s.routers[q].me.links, RouterLsa(lsa), s.net[k].source) ==> p in s'.net)
  {
    InFlightDeliverable(s, k);
    TakenOut(s.net, k);
    CopiesAreLone(s0, s, lsa, A + {q}, q, s.routers[q].me.links, lsa, s.net[k].source);
  }

  /** A willing router gets its first copy: it stores the record and serves its neighbours. */
  lemma FirstCopy(s0: System, s: System, k: nat, lsa: Node, A: set<int>)
    requires Spreading(s0, s, lsa, A) && IsFirstCopy(s0, s, k, lsa, A)
    ensures Spreading(s0, Apply(s, Deliver(k)), lsa, A + {s.net[k].to - 1})
  {
    var s' := Apply(s, Deliver(k));
    var p := s.net[k];
    StepKeepsSane(s, Deliver(k));
    var q := p.to - 1;
    var a, i := CopyReaches(s0, s, k, lsa, A, q);
    FirstCopyProgress(s0, s, k, lsa, A, q);
    FirstCopyNet(s0, s, k, lsa, A, q);
    NeighboursServed(s0, s, s'.net, lsa, A + {q}, p, a, i, q);
    SpreadOn(s0, s, s', lsa, A, A + {q});
  }

  lemma CopyReaches(s0: System, s: System, k: nat, lsa: Node, A: set<int>, q: int) returns (a: int, i: int)
    requires Spreading(s0, s, lsa, A) && IsFirstCopy(s0, s, k, lsa, A) && q == s.net[k].to - 1
    ensures SentOver(s0, lsa, A, s.net[k], a, i) && Reaches(s0, lsa, q)
    ensures SameWiring(s.routers[q].me, s0.routers[q].me)
  {
    assert LoneCopy(s0, lsa, A, s.net[k]) && Progress(s0, s, lsa, A, q);
    a, i :| SentOver(s0, lsa, A, s.net[k], a, i);
    ReachesNext(s0, s, lsa, A, a, i, q);
  }

  lemma ReachesNext(s0: System, s: System, lsa: Node, A: set<int>, a: int, i: int, q: int)
    requires Spreading(s0, s, lsa, A) && 0 <= a < |s0.routers| && (a + 1 == lsa.id || a in A)
    requires 0 <= q < |s0.routers| && q + 1 != lsa.id && Willing(s0, q, lsa)
    requires 0 <= i < |s0.routers[a].me.links| && s0.routers[a].me.links[i].neighbourId == q + 1
    ensures Reaches(s0, lsa, q)
  {
    assert Progress(s0, s, lsa, A, a);
    assert WillingIn(s0, lsa, a, 0) || a in A;
    var n: nat :| WillingIn(s0, lsa, a, n);
    assert Adjacent(s0, a, q);
    assert WillingIn(s0, lsa, q, n + 1);
  }

  lemma NeighboursServed(s0: System, s: System, net': seq<Packet>, lsa: Node, A': set<int>, p: Packet, a: int,
            i: int, q: int)
    requires Sane(s0) && Wired(s0) && SentOver(s0, lsa, A', p, a, i) && p.to == q + 1 && 0 <= q < |s0.routers|
    requires q < |s.routers| && SameWiring(s.routers[q].me, s0.routers[q].me)
    requires forall c :: c in Copies(s.routers[q].me.links, RouterLsa(lsa), p.source) ==> c in net'
    ensures forall j :: 0 <= j < |s0.routers[q].me.links| ==> Served(s0, lsa, A', net', q, j)
  {
    forall j | 0 <= j < |s0.routers[q].me.links| ensures Served(s0, lsa, A', net', q, j) {
      NeighbourServed(s0, s, net', lsa, A', p, a, i, q, j);
    }
  }

  lemma NeighbourServed(s0: System, s: System, net': seq<Packet>, lsa: Node, A': set<int>, p: Packet, a: int,
            i: int, q: int, j: int)
    requires Sane(s0) && Wired(s0) && SentOver(s0, lsa, A', p, a, i) && p.to == q + 1 && 0 <= q < |s0.routers|
    requires q < |s.routers| && SameWiring(s.routers[q].me, s0.routers[q].me)
    requires 0 <= j < |s0.routers[q].me.links|
    requires forall c :: c in Copies(s.routers[q].me.links, RouterLsa(lsa), p.source) ==> c in net'
    ensures Served(s0, lsa, A', net', q, j)
  {
    var l := s0.routers[q].me.links[j];
    assert WiredLink(s0, q, j);
    if l.neighbourIp == p.source {
      SkippedIsSender(s0, s, lsa, A', p, a, i, q, j);
    } else {
      var c := CopyPerLink(s.routers[q].me.links, RouterLsa(lsa), p.source, j);
      var copy := Copies(s.routers[q].me.links, RouterLsa(lsa), p.source)[c];
      assert copy in net';
      var m :| 0 <= m < |net'| && net'[m] == copy;
    }
  }

  /** The invariant holds through any undisturbed step. */
  lemma StepSpreads(s0: System, s: System, step: Step, lsa: Node, A: set<int>) returns (A': set<int>)
    requires Spreading(s0, s, lsa, A) && Enabled(s, step) && Undisturbed(s, step, lsa)
    ensures Spreading(s0, Apply(s, step), lsa, A')
  {
    if step.Deliver? {
      var p := s.net[step.k];
      InFlightDeliverable(s, step.k);
      if IsCopy(p, lsa) && p.to != lsa.id && p.to - 1 !in A && Willing(s0, p.to - 1, lsa) {
        FirstCopy(s0, s, step.k, lsa, A);
        A' := A + {p.to - 1};
      } else {
        DeliveredElse(s0, s, step.k, lsa, A);
        A' := A;
      }
    } else if step.Lose? {
      OtherLost(s0, s, step.k, lsa, A);
      A' := A;
    } else {
      OtherOriginates(s0, s, step, lsa, A);
      A' := A;
    }
  }

  lemma {:induction false} RunSpreads(s0: System, s: System, steps: seq<Step>, s': System, lsa: Node, A: set<int>)
      returns (A': set<int>)
    requires Spreading(s0, s, lsa, A) && UndisturbedRun(s, steps, s', lsa)
    ensures Spreading(s0, s', lsa, A')
    decreases |steps|
  {
    A' := A;
    if steps != [] {
      A' := StepSpreads(s0, s, steps[0], lsa, A);
      A' := RunSpreads(s0, Apply(s, steps[0]), steps[1..], s', lsa, A');
    }
  }

  ghost predicate Quiet(s: System, lsa: Node) {
    forall k :: 0 <= k < |s.net| ==> !IsCopy(s.net[k], lsa)
  }

  lemma {:induction false} QuietMeansReached(s0: System, s: System, lsa: Node, A: set<int>, r: int, n: nat)
    requires Spreading(s0, s, lsa, A) && Quiet(s, lsa) && WillingIn(s0, lsa, r, n)
    ensures r + 1 == lsa.id || r in A
    decreases n
  {
    if n > 0 {
      var a :| WillingIn(s0, lsa, a, n - 1) && Adjacent(s0, a, r);
      QuietMeansReached(s0, s, lsa, A, a, n - 1);
      var i :| 0 <= i < |s0.routers[a].me.links| && s0.routers[a].me.links[i].neighbourId == r + 1;
      assert Served(s0, lsa, A, s.net, a, i);
    }
  }

  /**
   Flooding coverage: if no copy is lost, then once none is in flight any more, the routers that hold the record are exactly
   those connected to the origin through routers to which it was news, whatever the delivery order, whatever the other
   routers originated, and however often any router measured and stored its own record meanwhile.
   */
  lemma FloodCoverage(s0: System, steps: seq<Step>, s: System, lsa: Node, r: int)
    requires JustSent(s0, lsa) && UndisturbedRun(s0, steps, s, lsa) && Quiet(s, lsa)
    requires 0 <= r < |s.routers| == |s0.routers| && r + 1 != lsa.id
    ensures Holds(s, r, lsa) <==> Reaches(s0, lsa, r)
  {
    SpreadingStarts(s0, lsa);
    var A := RunSpreads(s0, s0, steps, s, lsa, {});
    assert Progress(s0, s, lsa, A, r);
    if Reaches(s0, lsa, r) {
      var n :| WillingIn(s0, lsa, r, n);
      QuietMeansReached(s0, s, lsa, A, r, n);
    }
  }

  lemma SpreadingStarts(s0: System, lsa: Node)
    requires JustSent(s0, lsa)
    ensures Spreading(s0, s0, lsa, {})
  {
  }

  /** What bears on router o's entries is not in flight: its own record, a graph that holds one, or a request for such. */
  ghost predicate SilentAbout(p: Packet, o: nat) {
    match p.body
    case RouterLsa(other) => other.id != o + 1
    case NetworkLsa(graph) => o < |graph| && graph[o].state != Seen
    case NetworkRequest => false
  }

  /** A router sends its present record when nothing in flight bears on its entries and nobody has the record. */
  lemma SendingStartsFlood(s: System, o: nat, me: Node)
    requires Sane(s) && Wired(s) && NextRecord(s, o, me)
    requires forall k :: 0 <= k < |s.net| ==> SilentAbout(s.net[k], o)
    requires forall r :: 0 <= r < |s.routers| && r != o ==> !Holds(s, r, me)
    ensures JustSent(Apply(s, SendOwn(o, me)), me)
  {
    var s' := Apply(s, SendOwn(o, me));
    StepKeepsSane(s, SendOwn(o, me));
    OwnRecordInRange(s, o, me);
    forall a, i | 0 <= a < |s.routers| && 0 <= i < |s'.routers[a].me.links| ensures WiredLink(s', a, i) {
      assert WiredLink(s, a, i);
      var l := s.routers[a].me.links[i];
      var j :| BackLink(s, a, l.neighbourId, l.sourceIp, j);
      assert BackLink(s', a, l.neighbourId, l.sourceIp, j);
    }
    forall r | 0 <= r < |s'.routers| && r + 1 != me.id ensures !Holds(s', r, me) { assert !Holds(s, r, me); }
    CopiesAreLone(s', s, me, {}, o, me.links, me, NO_IP);
    forall a, i | 0 <= a < |s'.routers| && a + 1 == me.id && 0 <= i < |s'.routers[a].me.links|
      ensures Served(s', me, {}, s'.net, a, i)
    {
      assert WiredLink(s', a, i);
      var c := CopyPerLink(me.links, RouterLsa(me), NO_IP, i);
      assert s'.net[|s.net| + c] == Copies(me.links, RouterLsa(me), NO_IP)[c];
    }
  }

  /**
   A whole graph that brings the record first silences its receiver: it does not pass on the record then, nor when a copy
   arrives that it would have passed on. This is why requests and such graphs must not be in flight.
   */
  lemma ReplySilencesRouter(r: Router, reply: Packet, copy: Packet)
    requires reply.body.NetworkLsa? && Deliverable(r, reply) && copy.body.RouterLsa? && Deliverable(r, copy)
    requires reply.body.graph[copy.body.lsa.id - 1] == copy.body.lsa && copy.body.lsa.state == Seen
    requires Accepts(r.graph[copy.body.lsa.id - 1], copy.body.lsa)
    ensures Response(r, copy) == Copies(r.me.links, copy.body, copy.source)
    ensures Response(r, reply) == [] == Response(Receive(r, reply), copy)
  {
  }

  /** Connected over any links, willing or not. */
  ghost predicate ConnectedIn(s: System, o: int, r: int, n: nat)
    decreases n
  {
    0 <= r < |s.routers| && if n == 0 then r == o else exists a :: ConnectedIn(s, o, a, n - 1) && Adjacent(s, a, r)
  }

  /** If the record is news to every other router, every router connected to the origin gets it. */
  lemma {:induction false} NewsReachesAllConnected(s: System, lsa: Node, r: int, n: nat)
    requires forall q :: 0 <= q < |s.routers| && q + 1 != lsa.id ==> Willing(s, q, lsa)
    requires ConnectedIn(s, lsa.id - 1, r, n)
    ensures r + 1 == lsa.id || Reaches(s, lsa, r)
    decreases n
  {
    if n > 0 && r + 1 != lsa.id {
      var a :| ConnectedIn(s, lsa.id - 1, a, n - 1) && Adjacent(s, a, r);
      NewsReachesAllConnected(s, lsa, a, n - 1);
      assert WillingIn(s, lsa, a, 0) || Reaches(s, lsa, a);
      var m: nat :| WillingIn(s, lsa, a, m);
      assert WillingIn(s, lsa, r, m + 1);
    }
  }
}
