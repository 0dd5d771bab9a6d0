/** A network of routers that exchange packets in any order, with loss and restarts. */
module Flooding {
  import opened Network
  import opened Database
  import opened Protocol

  /** Router i has id i + 1; `past[i]` collects every record that router i really had when it sent or stored it. */
  datatype System = System(routers: seq<Router>, net: seq<Packet>, past: seq<set<Node>>)

  datatype Step =
    | SendOwn(r: nat, me: Node)
    | StoreOwnRecord(r: nat, me: Node)
    | Deliver(k: nat)
    | Lose(k: nat)
    | Restart(r: nat, me: Node)

  /** `me` is a record that router r may have next: its wiring stays, its clock does not run backwards. */
  ghost predicate NextRecord(s: System, r: nat, me: Node) {
    r < |s.routers| && NextOwn(me, s.routers[r].me)
  }

  ghost predicate Enabled(s: System, step: Step)
    requires Sane(s)
  {
    match step
    case SendOwn(r, me) => NextRecord(s, r, me)
    case StoreOwnRecord(r, me) => NextRecord(s, r, me)
    case Deliver(k) => k < |s.net|
    case Lose(k) => k < |s.net|
    case Restart(r, me) => NextRecord(s, r, me)
  }

  function Without(net: seq<Packet>, k: nat): seq<Packet>
    requires k < |net|
  {
    net[..k] + net[k + 1..]
  }

  ghost function Apply(s: System, step: Step): System
    requires Sane(s) && Enabled(s, step)
  {
    match step
    case SendOwn(r, me) =>
      assert GoodRouter(s, r);
      System(s.routers[r := Router(me, s.routers[r].graph)], s.net + Copies(me.links, RouterLsa(me), NO_IP),
             s.past[r := s.past[r] + {me}])
    case StoreOwnRecord(r, me) =>
      OwnRecordInRange(s, r, me);
      System(s.routers[r := Router(me, StoreOwn(s.routers[r].graph, me))], s.net, s.past[r := s.past[r] + {me}])
    case Deliver(k) =>
      var p := s.net[k];
      InFlightDeliverable(s, k);
      var r := s.routers[p.to - 1];
      System(s.routers[p.to - 1 := Receive(r, p)], Without(s.net, k) + Response(r, p), s.past)
    case Lose(k) =>
      s.(net := Without(s.net, k))
    case Restart(r, me) =>
      OwnRecordInRange(s, r, me);
      System(s.routers[r := Router(me, StoreOwn(InitialGraph(|s.routers|), me))],
             s.net + Copies(me.links, NetworkRequest, NO_IP), s.past[r := s.past[r] + {me}])
  }

  // ---------- No fabrication ----------

  /** A record that its origin really had. */
  ghost predicate Genuine(past: seq<set<Node>>, record: Node) {
    1 <= record.id <= |past| && record in past[record.id - 1]
  }

  /** Every seen entry is genuine, and the database is well formed and closed. */
  ghost predicate GenuineGraph(past: seq<set<Node>>, g: seq<Node>) {
    && |g| == |past| && GoodDatabase(g)
    && forall i :: 0 <= i < |g| && g[i].state == Seen ==> g[i] in past[i]
  }

  ghost predicate GenuinePacket(past: seq<set<Node>>, p: Packet) {
    && 1 <= p.to <= |past|
    && match p.body
       case RouterLsa(lsa) => Genuine(past, lsa)
       case NetworkLsa(graph) => GenuineGraph(past, graph)
       case NetworkRequest => true
  }

  /** What all records that router r ever had share with its present one. */
  ghost predicate GoodSnapshot(record: Node, me: Node, n: nat) {
    && GoodRecord(record, n) && SameWiring(record, me)
    && record.timestamp <= me.timestamp && MetricsInRange(record.links)
  }

  ghost predicate GoodRouter(s: System, r: int)
    requires |s.past| == |s.routers| && 0 <= r < |s.routers|
  {
    var me := s.routers[r].me;
    && me.id == r + 1 && |me.links| <= MAX_NODE_FAN
    && GoodSnapshot(me, me, |s.routers|)
    && GenuineGraph(s.past, s.routers[r].graph)
    && forall record :: record in s.past[r] ==> GoodSnapshot(record, me, |s.routers|)
  }

  /** The invariant of all runs. */
  ghost predicate Sane(s: System) {
    && |s.past| == |s.routers|
    && (forall r :: 0 <= r < |s.routers| ==> GoodRouter(s, r))
    && (forall k :: 0 <= k < |s.net| ==> GenuinePacket(s.past, s.net[k]))
  }

  lemma GenuineIsGood(s: System, record: Node)
    requires Sane(s) && Genuine(s.past, record)
    ensures GoodRecord(record, |s.routers|) && InRange(record, |s.routers|)
    ensures record.timestamp <= s.routers[record.id - 1].me.timestamp && MetricsInRange(record.links)
  {
    assert GoodRouter(s, record.id - 1);
  }

  lemma OwnRecordInRange(s: System, r: nat, me: Node)
    requires Sane(s) && NextRecord(s, r, me)
    ensures GoodRecord(me, |s.routers|) && InRange(me, |s.routers|) && me.id == r + 1
    ensures |s.routers[r].graph| == |s.routers|
  {
    assert GoodRouter(s, r);
    var was := s.routers[r].me;
    assert GoodNode(was, |s.routers|);
    assert GoodLinks(me.links, |s.routers|);
  }

  lemma InFlightDeliverable(s: System, k: nat)
    requires Sane(s) && k < |s.net|
    ensures 1 <= s.net[k].to <= |s.routers| && Deliverable(s.routers[s.net[k].to - 1], s.net[k])
  {
    var p := s.net[k];
    assert GenuinePacket(s.past, p);
    assert GoodRouter(s, p.to - 1);
    if p.body.RouterLsa? { GenuineIsGood(s, p.body.lsa); }
  }

  lemma MoreSnapshots(past: seq<set<Node>>, more: seq<set<Node>>, g: seq<Node>)
    requires |past| == |more| && forall i :: 0 <= i < |past| ==> past[i] <= more[i]
    requires GenuineGraph(past, g)
    ensures GenuineGraph(more, g)
  {
  }

  lemma MoreSnapshotsForPacket(past: seq<set<Node>>, more: seq<set<Node>>, p: Packet)
    requires |past| == |more| && forall i :: 0 <= i < |past| ==> past[i] <= more[i]
    requires GenuinePacket(past, p)
    ensures GenuinePacket(more, p)
  {
    if p.body.NetworkLsa? { MoreSnapshots(past, more, p.body.graph); }
  }

  /** Router r's record, already known as good, becomes its own; its snapshots stay good. */
  lemma GoodAfterRecord(s: System, r: nat, me: Node, graph: seq<Node>, net: seq<Packet>)
    requires Sane(s) && NextRecord(s, r, me)
    requires GenuineGraph(s.past[r := s.past[r] + {me}], graph)
    ensures GoodRouter(System(s.routers[r := Router(me, graph)], net, s.past[r := s.past[r] + {me}]), r)
  {
    assert GoodRouter(s, r);
    OwnRecordInRange(s, r, me);
    assert GoodSnapshot(me, me, |s.routers|);
    forall record | record in s.past[r] + {me} ensures GoodSnapshot(record, me, |s.routers|) {
      if record != me { assert GoodSnapshot(record, s.routers[r].me, |s.routers|); }
    }
  }

  lemma OthersStayGood(s: System, r: nat, me: Node, graph: seq<Node>, net: seq<Packet>, q: nat)
    requires Sane(s) && NextRecord(s, r, me) && q < |s.routers| && q != r
    ensures GoodRouter(System(s.routers[r := Router(me, graph)], net, s.past[r := s.past[r] + {me}]), q)
  {
    assert GoodRouter(s, q);
    MoreSnapshots(s.past, s.past[r := s.past[r] + {me}], s.routers[q].graph);
  }

  /** A router takes up a new record of its own, with a database and packets made from it. */
  lemma RecordStepKeepsSane(s: System, r: nat, me: Node, graph: seq<Node>, sent: seq<Packet>)
    requires Sane(s) && NextRecord(s, r, me)
    requires GenuineGraph(s.past[r := s.past[r] + {me}], graph)
    requires forall k :: 0 <= k < |sent| ==> GenuinePacket(s.past[r := s.past[r] + {me}], sent[k])
    ensures Sane(System(s.routers[r := Router(me, graph)], s.net + sent, s.past[r := s.past[r] + {me}]))
  {
    var more := s.past[r := s.past[r] + {me}];
    var s' := System(s.routers[r := Router(me, graph)], s.net + sent, more);
    forall q | 0 <= q < |s.routers| ensures GoodRouter(s', q) {
      if q == r {
        GoodAfterRecord(s, r, me, graph, s'.net);
      } else {
        OthersStayGood(s, r, me, graph, s'.net, q);
      }
    }
    forall k | 0 <= k < |s'.net| ensures GenuinePacket(more, s'.net[k]) {
      if k < |s.net| { MoreSnapshotsForPacket(s.past, more, s.net[k]); }
    }
  }

  /** A router's database changes, and packets come and go. */
  lemma GraphStepKeepsSane(s: System, q: nat, graph: seq<Node>, net: seq<Packet>)
    requires Sane(s) && q < |s.routers| && GenuineGraph(s.past, graph)
    requires forall k :: 0 <= k < |net| ==> GenuinePacket(s.past, net[k])
    ensures Sane(System(s.routers[q := s.routers[q].(graph := graph)], net, s.past))
  {
    var s' := System(s.routers[q := s.routers[q].(graph := graph)], net, s.past);
    forall r | 0 <= r < |s.routers| ensures GoodRouter(s', r) {
      assert GoodRouter(s, r);
    }
  }

  lemma StoredIsGenuine(past: seq<set<Node>>, g: seq<Node>, record: Node)
    requires GenuineGraph(past, g) && Genuine(past, record) && GoodRecord(record, |past|)
    ensures InRange(record, |g|)
    ensures GenuineGraph(past, MergeNode(g, record)) && GenuineGraph(past, StoreOwn(g, record))
  {
    WritersKeepDatabase(g, record, g);
    MarkingIsGenuine(past, g, record.links);
    MarkingIsGenuine(past, g[record.id - 1 := record], record.links);
  }

  lemma MarkingIsGenuine(past: seq<set<Node>>, g: seq<Node>, links: seq<Link>)
    requires |g| == |past| && forall i :: 0 <= i < |g| && g[i].state == Seen ==> g[i] in past[i]
    ensures forall i :: 0 <= i < |g| && Mark(g, links)[i].state == Seen ==> Mark(g, links)[i] in past[i]
  {
  }

  lemma MergedIsGenuine(past: seq<set<Node>>, g: seq<Node>, others: seq<Node>)
    requires GenuineGraph(past, g) && GenuineGraph(past, others)
    ensures GenuineGraph(past, MergeGraph(g, others))
  {
    MergeKeepsDatabase(g, others);
  }

  lemma CopiesAreGenuine(past: seq<set<Node>>, links: seq<Link>, body: Body, except: Ipv4)
    requires GoodLinks(links, |past|)
    requires match body {
               case RouterLsa(lsa) => Genuine(past, lsa)
               case NetworkLsa(g) => GenuineGraph(past, g)
               case NetworkRequest => true
             }
    ensures forall i :: 0 <= i < |Copies(links, body, except)| ==> GenuinePacket(past, Copies(links, body, except)[i])
  {
    forall i | 0 <= i < |Copies(links, body, except)| ensures GenuinePacket(past, Copies(links, body, except)[i]) {
      var k := LinkPerCopy(links, body, except, i);
    }
  }

  lemma {:induction false} ReplyIsGenuine(past: seq<set<Node>>, links: seq<Link>, g: seq<Node>, source: Ipv4)
    requires (forall i :: 0 <= i < |links| ==> 1 <= links[i].neighbourId <= |past|) && GenuineGraph(past, g)
    ensures forall i :: 0 <= i < |Reply(links, g, source)| ==> GenuinePacket(past, Reply(links, g, source)[i])
  {
    if links != [] && links[0].neighbourIp != source { ReplyIsGenuine(past, links[1..], g, source); }
  }

  lemma ResponseIsGenuine(s: System, k: nat)
    requires Sane(s) && k < |s.net|
    requires 1 <= s.net[k].to <= |s.routers| && Deliverable(s.routers[s.net[k].to - 1], s.net[k])
    ensures var out := Response(s.routers[s.net[k].to - 1], s.net[k]);
            forall i :: 0 <= i < |out| ==> GenuinePacket(s.past, out[i])
    ensures GenuineGraph(s.past, Receive(s.routers[s.net[k].to - 1], s.net[k]).graph)
  {
    var p := s.net[k];
    var r := s.routers[p.to - 1];
    assert GenuinePacket(s.past, p);
    assert GoodRouter(s, p.to - 1);
    match p.body
    case RouterLsa(lsa) =>
      GenuineIsGood(s, lsa);
      StoredIsGenuine(s.past, r.graph, lsa);
      CopiesAreGenuine(s.past, r.me.links, p.body, p.source);
    case NetworkLsa(g) =>
      MergedIsGenuine(s.past, r.graph, g);
    case NetworkRequest =>
      ReplyIsGenuine(s.past, r.me.links, r.graph, p.source);
  }

  lemma OwnGraphIsGenuine(s: System, r: nat, me: Node, g: seq<Node>)
    requires Sane(s) && NextRecord(s, r, me) && (g == s.routers[r].graph || g == InitialGraph(|s.routers|))
    ensures InRange(me, |g|)
    ensures GenuineGraph(s.past[r := s.past[r] + {me}], StoreOwn(g, me))
    ensures GenuineGraph(s.past[r := s.past[r] + {me}], g)
  {
    var more := s.past[r := s.past[r] + {me}];
    OwnRecordInRange(s, r, me);
    assert GoodRouter(s, r);
    InitialIsGood(|s.routers|);
    MoreSnapshots(s.past, more, g);
    StoredIsGenuine(more, g, me);
  }

  /** No step fabricates anything: the invariant is kept. */
  lemma StepKeepsSane(s: System, step: Step)
    requires Sane(s) && Enabled(s, step)
    ensures Sane(Apply(s, step))
  {
    match step
    case SendOwn(r, me) =>
      OwnGraphIsGenuine(s, r, me, s.routers[r].graph);
      OwnRecordInRange(s, r, me);
      CopiesAreGenuine(s.past[r := s.past[r] + {me}], me.links, RouterLsa(me), NO_IP);
      RecordStepKeepsSane(s, r, me, s.routers[r].graph, Copies(me.links, RouterLsa(me), NO_IP));
    case StoreOwnRecord(r, me) =>
      OwnGraphIsGenuine(s, r, me, s.routers[r].graph);
      RecordStepKeepsSane(s, r, me, StoreOwn(s.routers[r].graph, me), []);
      assert s.net + [] == s.net;
    case Deliver(k) =>
      InFlightDeliverable(s, k);
      ResponseIsGenuine(s, k);
      var r := s.routers[s.net[k].to - 1];
      GraphStepKeepsSane(s, s.net[k].to - 1, Receive(r, s.net[k]).graph, Without(s.net, k) + Response(r, s.net[k]));
    case Lose(k) =>
      forall r | 0 <= r < |s.routers| ensures GoodRouter(Apply(s, step), r) { assert GoodRouter(s, r); }
    case Restart(r, me) =>
      OwnGraphIsGenuine(s, r, me, InitialGraph(|s.routers|));
      OwnRecordInRange(s, r, me);
      CopiesAreGenuine(s.past[r := s.past[r] + {me}], me.links, NetworkRequest, NO_IP);
      RecordStepKeepsSane(s, r, me, StoreOwn(InitialGraph(|s.routers|), me), Copies(me.links, NetworkRequest, NO_IP));
  }

  // ---------- Runs ----------

  ghost predicate Run(s: System, steps: seq<Step>, s': System)
    requires Sane(s)
    decreases |steps|
  {
    if steps == [] then s' == s
    else Enabled(s, steps[0]) && (StepKeepsSane(s, steps[0]); Run(Apply(s, steps[0]), steps[1..], s'))
  }

  /** Every router has just booted: it knows its own record, and the others only as neighbours. */
  ghost predicate Booted(s: System) {
    && |s.past| == |s.routers|
    && (forall r :: 0 <= r < |s.routers| ==>
          var me := s.routers[r].me;
          && me.id == r + 1 && |me.links| <= MAX_NODE_FAN && GoodSnapshot(me, me, |s.routers|)
          && s.routers[r].graph == StoreOwn(InitialGraph(|s.routers|), me) && s.past[r] == {me})
    && forall k :: 0 <= k < |s.net| ==> 1 <= s.net[k].to <= |s.routers| && s.net[k].body == NetworkRequest
  }

  lemma BootedIsSane(s: System)
    requires Booted(s)
    ensures Sane(s)
  {
    forall r | 0 <= r < |s.routers| ensures GoodRouter(s, r) {
      InitialIsGood(|s.routers|);
      StoredIsGenuine(s.past, InitialGraph(|s.routers|), s.routers[r].me);
    }
  }

  lemma {:induction false} RunKeepsSane(s: System, steps: seq<Step>, s': System)
    requires Sane(s) && Run(s, steps, s')
    ensures Sane(s')
    decreases |steps|
  {
    if steps != [] {
      StepKeepsSane(s, steps[0]);
      RunKeepsSane(Apply(s, steps[0]), steps[1..], s');
    }
  }

  /** Entry i of router r's database, if seen, is a record that router i really had, and not from the future. */
  ghost predicate EntryGenuine(s: System, r: int, i: int)
    requires 0 <= r < |s.routers| && 0 <= i < |s.routers[r].graph|
  {
    s.routers[r].graph[i].state == Seen ==>
      && i < |s.past| && i < |s.routers| && s.routers[r].graph[i] in s.past[i]
      && s.routers[r].graph[i].timestamp <= s.routers[i].me.timestamp
  }

  /** Nothing in this state was made up: neither in a database nor in flight. */
  ghost predicate AllGenuine(s: System) {
    && (forall r, i :: 0 <= r < |s.routers| && 0 <= i < |s.routers[r].graph| ==> EntryGenuine(s, r, i))
    && (forall k :: 0 <= k < |s.net| ==> GenuinePacket(s.past, s.net[k]))
  }

  lemma SaneIsGenuine(s: System)
    requires Sane(s)
    ensures AllGenuine(s)
  {
    forall r, i | 0 <= r < |s.routers| && 0 <= i < |s.routers[r].graph| ensures EntryGenuine(s, r, i) {
      assert GoodRouter(s, r);
      if s.routers[r].graph[i].state == Seen { SnapshotTime(s, i, s.routers[r].graph[i]); }
    }
  }

  /** s is a state that some run from a freshly booted network reaches. */
  ghost predicate Attained(s0: System, steps: seq<Step>, s: System) {
    Booted(s0) && (BootedIsSane(s0); Run(s0, steps, s))
  }

  lemma AttainedIsSane(s0: System, steps: seq<Step>, s: System)
    requires Attained(s0, steps, s)
    ensures Sane(s)
  {
    BootedIsSane(s0);
    RunKeepsSane(s0, steps, s);
  }

  /** In every state that any run reaches, each seen record, stored or in flight, is one its origin really had. */
  lemma NoFabrication(s0: System, steps: seq<Step>, s: System)
    requires Attained(s0, steps, s)
    ensures AllGenuine(s)
  {
    AttainedIsSane(s0, steps, s);
    SaneIsGenuine(s);
  }

  lemma SnapshotTime(s: System, i: int, record: Node)
    requires Sane(s) && 0 <= i < |s.routers| && record in s.past[i]
    ensures record.timestamp <= s.routers[i].me.timestamp
  {
    assert GoodRouter(s, i);
  }

  lemma ReceiveNeverGoesBack(r: Router, p: Packet, i: int)
    requires Deliverable(r, p) && 0 <= i < |r.graph|
    ensures |Receive(r, p).graph| == |r.graph| && NotBelow(Receive(r, p).graph[i], r.graph[i])
  {
  }

  lemma StoreNeverGoesBack(g: seq<Node>, me: Node, i: int)
    requires InRange(me, |g|) && me.state == Seen && 0 <= i < |g|
    requires g[me.id - 1].state == Seen ==> g[me.id - 1].timestamp <= me.timestamp
    ensures NotBelow(StoreOwn(g, me)[i], g[i])
  {
  }

  /** Without restarts no entry of any router is ever forgotten or replaced by an older record. */
  lemma EntriesNeverGoBack(s: System, step: Step, r: int, i: int)
    requires Sane(s) && Enabled(s, step) && !step.Restart?
    requires 0 <= r < |s.routers| && 0 <= i < |s.routers[r].graph|
    ensures var s' := Apply(s, step);
            r < |s'.routers| && i < |s'.routers[r].graph| && NotBelow(s'.routers[r].graph[i], s.routers[r].graph[i])
  {
    assert GoodRouter(s, r);
    match step
    case StoreOwnRecord(q, me) =>
      OwnRecordInRange(s, q, me);
      if q == r {
        if s.routers[r].graph[r].state == Seen { SnapshotTime(s, r, s.routers[r].graph[r]); }
        StoreNeverGoesBack(s.routers[r].graph, me, i);
      }
    case Deliver(k) =>
      InFlightDeliverable(s, k);
      if s.net[k].to - 1 == r { ReceiveNeverGoesBack(s.routers[r], s.net[k], i); }
    case _ =>
  }

  // ---------- Flooding terminates ----------

  /** How often an entry can still improve when no record is newer than T. */
  function Remaining(entry: Node, T: nat): nat {
    match entry.state
    case Unseen => T + 2
    case Opaque => T + 1
    case Seen => if entry.timestamp <= T then T - entry.timestamp else 0
  }

  ghost function GraphRank(g: seq<Node>, T: nat): nat {
    if g == [] then 0 else GraphRank(g[..|g| - 1], T) + Remaining(g[|g| - 1], T)
  }

  ghost function RouterRank(rs: seq<Router>, T: nat): nat {
    if rs == [] then 0 else RouterRank(rs[..|rs| - 1], T) + GraphRank(rs[|rs| - 1].graph, T)
  }

  /** A request counts for the reply it will cause as well. */
  function PacketWeight(p: Packet): nat { if p.body.NetworkRequest? then 2 else 1 }

  ghost function NetWeight(net: seq<Packet>): nat {
    if net == [] then 0 else NetWeight(net[..|net| - 1]) + PacketWeight(net[|net| - 1])
  }

  /** Fan-out times the remaining improvements, plus what is in flight. */
  ghost function Measure(s: System, T: nat): nat {
    MAX_NODE_FAN * RouterRank(s.routers, T) + NetWeight(s.net)
  }

  lemma {:induction false} NetWeightSplits(a: seq<Packet>, b: seq<Packet>)
    ensures NetWeight(a + b) == NetWeight(a) + NetWeight(b)
  {
    if b == [] {
      assert a + b == a;
    } else {
      assert (a + b)[..|a + b| - 1] == a + b[..|b| - 1];
      NetWeightSplits(a, b[..|b| - 1]);
    }
  }

  lemma {:induction false} WithoutWeight(net: seq<Packet>, k: nat)
    requires k < |net|
    ensures NetWeight(Without(net, k)) + PacketWeight(net[k]) == NetWeight(net)
  {
    var init := net[..|net| - 1];
    if k == |net| - 1 {
      assert Without(net, k) == init;
    } else {
      WithoutWeight(init, k);
      assert Without(net, k)[..|net| - 2] == Without(init, k);
    }
  }

  lemma {:induction false} PlainWeight(sent: seq<Packet>)
    requires forall i :: 0 <= i < |sent| ==> !sent[i].body.NetworkRequest?
    ensures NetWeight(sent) == |sent|
  {
    if sent != [] { PlainWeight(sent[..|sent| - 1]); }
  }

  lemma RemainingShrinks(a: Node, b: Node, T: nat)
    requires NotBelow(a, b) && (b.state == Seen ==> b.timestamp <= T)
    ensures Remaining(a, T) <= Remaining(b, T)
    ensures a.state == Seen && a.timestamp <= T && (b.state == Seen ==> b.timestamp < a.timestamp) ==>
              Remaining(a, T) < Remaining(b, T)
  {
  }

  /** If no entry gets worse the rank does not grow, and it shrinks if the entry at `at` gets better. */
  lemma {:induction false} GraphRankShrinks(g: seq<Node>, g': seq<Node>, T: nat, at: int)
    requires |g| == |g'| && forall i :: 0 <= i < |g| ==> Remaining(g'[i], T) <= Remaining(g[i], T)
    ensures GraphRank(g', T) <= GraphRank(g, T)
    ensures 0 <= at < |g| && Remaining(g'[at], T) < Remaining(g[at], T) ==> GraphRank(g', T) < GraphRank(g, T)
  {
    if g != [] { GraphRankShrinks(g[..|g| - 1], g'[..|g| - 1], T, at); }
  }

  lemma {:induction false} RouterRankShrinks(rs: seq<Router>, q: nat, graph: seq<Node>, T: nat)
    requires q < |rs|
    ensures var rs' := rs[q := rs[q].(graph := graph)];
            RouterRank(rs', T) - GraphRank(graph, T) == RouterRank(rs, T) - GraphRank(rs[q].graph, T)
  {
    var rs' := rs[q := rs[q].(graph := graph)];
    var init := rs[..|rs| - 1];
    if q < |rs| - 1 {
      assert rs'[..|rs| - 1] == init[q := init[q].(graph := graph)];
      RouterRankShrinks(init, q, graph, T);
    } else {
      assert rs'[..|rs| - 1] == init;
    }
  }

  ghost predicate NoneNewerThan(s: System, T: nat) {
    forall r :: 0 <= r < |s.routers| ==> s.routers[r].me.timestamp <= T
  }

  lemma ReceiveNoWorse(s: System, q: int, p: Packet, T: nat)
    requires Sane(s) && NoneNewerThan(s, T) && 0 <= q < |s.routers| && Deliverable(s.routers[q], p)
    ensures var g, g' := s.routers[q].graph, Receive(s.routers[q], p).graph;
            |g| == |g'| && forall i :: 0 <= i < |g| ==> Remaining(g'[i], T) <= Remaining(g[i], T)
  {
    var g, g' := s.routers[q].graph, Receive(s.routers[q], p).graph;
    assert GoodRouter(s, q);
    forall i | 0 <= i < |g| ensures Remaining(g'[i], T) <= Remaining(g[i], T) {
      if g[i].state == Seen { SnapshotTime(s, i, g[i]); }
      ReceiveNeverGoesBack(s.routers[q], p, i);
      RemainingShrinks(g'[i], g[i], T);
    }
  }

  predicate AcceptsPacket(r: Router, p: Packet)
    requires Deliverable(r, p)
  {
    p.body.RouterLsa? && Accepts(r.graph[p.body.lsa.id - 1], p.body.lsa)
  }

  /** Only an accepted router LSA and a request cause packets. */
  lemma ResponseWeight(r: Router, p: Packet)
    requires Deliverable(r, p)
    ensures NetWeight(Response(r, p)) <=
            if AcceptsPacket(r, p) then |r.me.links| else if p.body.NetworkRequest? then 1 else 0
  {
    if AcceptsPacket(r, p) {
      CopiesWeight(r.me.links, p.body, p.source);
    } else if p.body.NetworkRequest? {
      ReplyWeight(r.me.links, r.graph, p.source);
    }
  }

  lemma ReceiveRank(s: System, k: nat, T: nat)
    requires Sane(s) && k < |s.net| && NoneNewerThan(s, T)
    requires 1 <= s.net[k].to <= |s.routers| && Deliverable(s.routers[s.net[k].to - 1], s.net[k])
    ensures var p := s.net[k]; var r := s.routers[p.to - 1];
            && GraphRank(Receive(r, p).graph, T) <= GraphRank(r.graph, T)
            && (AcceptsPacket(r, p) ==> GraphRank(Receive(r, p).graph, T) < GraphRank(r.graph, T))
  {
    var p := s.net[k];
    var r := s.routers[p.to - 1];
    ReceiveNoWorse(s, p.to - 1, p, T);
    if AcceptsPacket(r, p) {
      AcceptedIsBetter(s, k, T);
      GraphRankShrinks(r.graph, Receive(r, p).graph, T, p.body.lsa.id - 1);
    } else {
      GraphRankShrinks(r.graph, Receive(r, p).graph, T, -1);
    }
  }

  /** What receiving a packet does to the receiver's rank: less if a router LSA is accepted, never more. */
  lemma ReceiveShrinksRank(s: System, k: nat, T: nat)
    requires Sane(s) && k < |s.net| && NoneNewerThan(s, T)
    requires 1 <= s.net[k].to <= |s.routers| && Deliverable(s.routers[s.net[k].to - 1], s.net[k])
    ensures var p := s.net[k]; var r := s.routers[p.to - 1]; var out := Response(r, p);
            && GraphRank(Receive(r, p).graph, T) <= GraphRank(r.graph, T)
            && NetWeight(out) < PacketWeight(p) + MAX_NODE_FAN * (GraphRank(r.graph, T) - GraphRank(Receive(r, p).graph, T))
  {
    var p := s.net[k];
    assert GoodRouter(s, p.to - 1);
    ReceiveRank(s, k, T);
    ResponseWeight(s.routers[p.to - 1], p);
  }

  lemma AcceptedIsBetter(s: System, k: nat, T: nat)
    requires Sane(s) && k < |s.net| && NoneNewerThan(s, T)
    requires 1 <= s.net[k].to <= |s.routers| && Deliverable(s.routers[s.net[k].to - 1], s.net[k])
    requires s.net[k].body.RouterLsa?
    requires Accepts(s.routers[s.net[k].to - 1].graph[s.net[k].body.lsa.id - 1], s.net[k].body.lsa)
    ensures var r := s.routers[s.net[k].to - 1]; var i := s.net[k].body.lsa.id - 1;
            Remaining(Receive(r, s.net[k]).graph[i], T) < Remaining(r.graph[i], T)
  {
    var lsa := s.net[k].body.lsa;
    assert GenuinePacket(s.past, s.net[k]);
    GenuineIsGood(s, lsa);
    assert GoodRouter(s, s.net[k].to - 1);
  }

  lemma CopiesWeight(links: seq<Link>, body: Body, except: Ipv4)
    requires body.RouterLsa?
    ensures NetWeight(Copies(links, body, except)) <= |links|
  {
    var out := Copies(links, body, except);
    forall i | 0 <= i < |out| ensures !out[i].body.NetworkRequest? {
      var k := LinkPerCopy(links, body, except, i);
    }
    PlainWeight(out);
  }

  lemma {:induction false} ReplyWeight(links: seq<Link>, graph: seq<Node>, source: Ipv4)
    ensures NetWeight(Reply(links, graph, source)) <= 1
  {
    if links != [] && links[0].neighbourIp != source { ReplyWeight(links[1..], graph, source); }
  }

  /** The terms of the measure that a delivery changes. */
  lemma MeasureAfter(rs: seq<Router>, net: seq<Packet>, k: nat, graph: seq<Node>, sent: seq<Packet>, T: nat)
    requires k < |net| && 1 <= net[k].to <= |rs|
    ensures var q := net[k].to - 1;
            MAX_NODE_FAN * RouterRank(rs[q := rs[q].(graph := graph)], T) + NetWeight(Without(net, k) + sent) ==
            MAX_NODE_FAN * (RouterRank(rs, T) - GraphRank(rs[q].graph, T) + GraphRank(graph, T))
            + NetWeight(net) - PacketWeight(net[k]) + NetWeight(sent)
  {
    RouterRankShrinks(rs, net[k].to - 1, graph, T);
    WithoutWeight(net, k);
    NetWeightSplits(Without(net, k), sent);
  }

  /** Every delivery and every loss brings the network strictly closer to silence. */
  lemma DeliveryShrinksMeasure(s: System, step: Step, T: nat)
    requires Sane(s) && Enabled(s, step) && (step.Deliver? || step.Lose?) && NoneNewerThan(s, T)
    ensures Measure(Apply(s, step), T) < Measure(s, T)
  {
    if step.Deliver? {
      InFlightDeliverable(s, step.k);
      var r := s.routers[s.net[step.k].to - 1];
      ReceiveShrinksRank(s, step.k, T);
      Delivered(s, step.k, r);
      MeasureAfter(s.routers, s.net, step.k, Receive(r, s.net[step.k]).graph, Response(r, s.net[step.k]), T);
    } else {
      WithoutWeight(s.net, step.k);
    }
  }

  lemma Delivered(s: System, k: nat, r: Router)
    requires Sane(s) && k < |s.net| && 1 <= s.net[k].to <= |s.routers|
    requires r == s.routers[s.net[k].to - 1] && Deliverable(r, s.net[k])
    ensures Apply(s, Deliver(k)).routers == s.routers[s.net[k].to - 1 := r.(graph := Receive(r, s.net[k]).graph)]
    ensures Apply(s, Deliver(k)).net == Without(s.net, k) + Response(r, s.net[k])
  {
    assert Receive(r, s.net[k]) == r.(graph := Receive(r, s.net[k]).graph);
  }

  /** So without new originations any run of deliveries and losses, whatever its order, is bounded by the initial measure. */
  lemma {:induction false} FloodingTerminates(s: System, steps: seq<Step>, s': System, T: nat)
    requires Sane(s) && Run(s, steps, s') && NoneNewerThan(s, T)
    requires forall i :: 0 <= i < |steps| ==> steps[i].Deliver? || steps[i].Lose?
    ensures |steps| + Measure(s', T) <= Measure(s, T)
    decreases |steps|
  {
    if steps != [] {
      DeliveryShrinksMeasure(s, steps[0], T);
      StepKeepsSane(s, steps[0]);
      FloodingTerminates(Apply(s, steps[0]), steps[1..], s', T);
    }
  }
}
