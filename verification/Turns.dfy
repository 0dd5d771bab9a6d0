/** A turn of a daemon's event loop, seen from the network: steps of the network model. */
module Turns {
  import opened Network
  import opened Database
  import opened Protocol
  import opened Flooding
  import opened Daemon

  /** What a daemon demands of an arriving packet holds of every packet in flight. */
  lemma ArrivalsAreExpected(s: System, k: nat)
    requires Sane(s) && k < |s.net|
    ensures 1 <= s.net[k].to <= |s.routers| && Deliverable(s.routers[s.net[k].to - 1], s.net[k])
    ensures match s.net[k].body
            case RouterLsa(lsa) => GoodRecord(lsa, |s.routers|)
            case NetworkLsa(graph) => |graph| == |s.routers| && GoodDatabase(graph)
            case NetworkRequest => true
  {
    InFlightDeliverable(s, k);
    assert GenuinePacket(s.past, s.net[k]);
    if s.net[k].body.RouterLsa? { GenuineIsGood(s, s.net[k].body.lsa); }
  }

  /** A turn announces, stores, does both in this order, or neither. */
  ghost function OwnSteps(ev: Event, r: nat, links: seq<Link>, announced: Node, me: Node): seq<Step> {
    (if Announces(ev, links) then [SendOwn(r, announced)] else [])
    + (if Computes(ev, links) then [StoreOwnRecord(r, me)] else [])
  }

  /** The records that a turn announces and stores may follow the present one, in this order. */
  lemma TurnRecords(ev: Event, me0: Node, announced: Node, me: Node, then_: nat, now: nat, dt: bool, n: nat)
    requires GoodRecord(me0, n) && me0.timestamp <= then_ <= now
    ensures Remeasured(announced, me0.(links := AfterLinkEvent(ev, me0.links)), then_, dt) ==> NextOwn(announced, me0)
    ensures Remeasured(me, me0.(links := AfterLinkEvent(ev, me0.links)), now, dt) ==> NextOwn(me, me0)
    ensures (&& Remeasured(announced, me0.(links := AfterLinkEvent(ev, me0.links)), then_, dt)
             && Remeasured(me, me0.(links := AfterLinkEvent(ev, me0.links)), now, dt)) ==>
              NextOwn(me, announced)
  {
    if Remeasured(announced, me0.(links := AfterLinkEvent(ev, me0.links)), then_, dt) {
      EventGivesNextRecord(ev, announced, me0, then_, dt, n);
    }
    if Remeasured(me, me0.(links := AfterLinkEvent(ev, me0.links)), now, dt) {
      EventGivesNextRecord(ev, me, me0, now, dt, n);
    }
  }

  lemma NoSteps(s: System)
    requires Sane(s)
    ensures Run(s, [], s)
  {
  }

  lemma OneStep(s: System, step: Step)
    requires Sane(s) && Enabled(s, step)
    ensures Run(s, [step], Apply(s, step)) && Sane(Apply(s, step))
  {
    StepKeepsSane(s, step);
    assert [step][1..] == [];
    NoSteps(Apply(s, step));
  }

  lemma TwoSteps(s: System, first: Step, second: Step)
    requires Sane(s) && Enabled(s, first)
    requires Sane(Apply(s, first)) && Enabled(Apply(s, first), second)
    ensures Run(s, [first, second], Apply(Apply(s, first), second))
  {
    assert [first, second][1..] == [second];
    OneStep(Apply(s, first), second);
  }

  /** Announcing and then storing leaves the database that storing alone would, and the copies in flight. */
  lemma AnnounceAndStore(s: System, r: nat, announced: Node, me: Node)
    requires Sane(s) && NextRecord(s, r, announced) && NextRecord(s, r, me) && NextOwn(me, announced)
    ensures InRange(me, |s.routers[r].graph|)
    ensures Enabled(s, SendOwn(r, announced)) && Sane(Apply(s, SendOwn(r, announced)))
    ensures var s1 := Apply(s, SendOwn(r, announced));
            && Enabled(s1, StoreOwnRecord(r, me))
            && Apply(s1, StoreOwnRecord(r, me)).routers == s.routers[r := Router(me, StoreOwn(s.routers[r].graph, me))]
            && Apply(s1, StoreOwnRecord(r, me)).net == s.net + Copies(announced.links, RouterLsa(announced), NO_IP)
  {
    StepKeepsSane(s, SendOwn(r, announced));
    OwnRecordInRange(s, r, me);
  }

  lemma OwnTurnIsRun(s: System, r: nat, ev: Event, after: Router, sent: seq<Packet>, announced: Node,
                     times: seq<nat>, dt: bool) returns (s': System)
    requires Sane(s) && r < |s.routers| && ClockReadings(times) && s.routers[r].me.timestamp <= times[0]
    requires OwnTurn(ev, s.routers[r], after, sent, announced, times, dt)
    ensures Run(s, OwnSteps(ev, r, s.routers[r].me.links, announced, after.me), s')
    ensures s'.routers == s.routers[r := after] && s'.net == s.net + sent
  {
    var me0 := s.routers[r].me;
    assert GoodRouter(s, r);
    TurnRecords(ev, me0, announced, after.me, times[2], times[3], dt, |s.routers|);
    if Announces(ev, me0.links) && Computes(ev, me0.links) {
      AnnounceAndStore(s, r, announced, after.me);
      TwoSteps(s, SendOwn(r, announced), StoreOwnRecord(r, after.me));
      s' := Apply(Apply(s, SendOwn(r, announced)), StoreOwnRecord(r, after.me));
    } else if Announces(ev, me0.links) {
      OneStep(s, SendOwn(r, announced));
      s' := Apply(s, SendOwn(r, announced));
    } else if Computes(ev, me0.links) {
      OneStep(s, StoreOwnRecord(r, after.me));
      s' := Apply(s, StoreOwnRecord(r, after.me));
    } else {
      NoSteps(s);
      s' := s;
    }
  }

  /**
   Whatever a daemon does in one turn of its event loop, from the state that a router has in the network, is a run of the
   network: delivering the packet that arrived, or announcing and storing the records that the turn made.
   */
  lemma TurnIsRun(s: System, r: nat, ev: Event, k: nat, after: Router, sent: seq<Packet>, announced: Node,
                  times: seq<nat>, dt: bool) returns (steps: seq<Step>, s': System)
    requires Sane(s) && r < |s.routers| && ClockReadings(times) && s.routers[r].me.timestamp <= times[0]
    requires ev.Arrival? ==> k < |s.net| && s.net[k] == ev.p && ev.p.to == r + 1
    requires Turn(ev, s.routers[r], after, sent, announced, times, dt)
    ensures Run(s, steps, s') && s'.routers == s.routers[r := after]
    ensures s'.net == (if ev.Arrival? then Without(s.net, k) else s.net) + sent
    ensures steps == if ev.Arrival? then [Deliver(k)] else OwnSteps(ev, r, s.routers[r].me.links, announced, after.me)
  {
    if ev.Arrival? {
      OneStep(s, Deliver(k));
      steps := [Deliver(k)];
      s' := Apply(s, Deliver(k));
    } else {
      steps := OwnSteps(ev, r, s.routers[r].me.links, announced, after.me);
      s' := OwnTurnIsRun(s, r, ev, after, sent, announced, times, dt);
    }
  }

  lemma {:induction false} RequestsAreCopies(links: seq<Link>)
    requires forall k :: 0 <= k < |links| ==> links[k].neighbourIp != NO_IP
    ensures Copies(links, NetworkRequest, NO_IP) == Requests(links)
  {
    if links != [] {
      var n := |links| - 1;
      RequestsAreCopies(links[..n]);
      assert Requests(links) == Requests(links[..n]) + [Packet(links[n].neighbourId, links[n].sourceIp, NetworkRequest)];
    }
  }

  /** The record of a daemon that boots with the wiring of the router it restarts may be that router's next. */
  lemma BootRecordIsNext(me: Node, me0: Node, now: nat)
    requires AllDown(me, me0.links) && me.id == me0.id && me.timestamp == now >= me0.timestamp && MetricsInRange(me.links)
    ensures NextOwn(me, me0)
  {
  }

  /**
   A boot is a restart in the network: all the router knows afterwards is its own record, and that its neighbours exist,
   and each of these is asked for its database.
   */
  lemma BootIsRestart(s: System, r: nat, me: Node, after: Router, j: int)
    requires Sane(s) && NextRecord(s, r, me) && 0 <= j < |s.routers| && j != r
    requires forall k :: 0 <= k < |me.links| ==> me.links[k].neighbourIp != NO_IP
    requires InRange(me, |s.routers|) && after == Router(me, StoreOwn(InitialGraph(|s.routers|), me))
    ensures var s' := Apply(s, Restart(r, me));
            s'.routers == s.routers[r := after] && s'.net == s.net + Requests(me.links)
    ensures |after.graph| == |s.routers| && after.graph[r] == me
    ensures after.graph[j].state ==
            if exists l :: 0 <= l < |me.links| && me.links[l].neighbourId == j + 1 then Opaque else Unseen
  {
    OwnRecordInRange(s, r, me);
    RequestsAreCopies(me.links);
    OtherEntries(InitialGraph(|s.routers|), me, j);
    OwnEntryIsStored(InitialGraph(|s.routers|), me);
  }
}
