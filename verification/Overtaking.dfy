/** A run of the network in which one announcement overtakes another. */
module Overtaking {
  import opened Network
  import opened Database
  import opened Protocol
  import opened Flooding

  ghost predicate IsPacket(net: seq<Packet>, k: int, p: Packet) { 0 <= k < |net| && net[k] == p }

  /** An announcement leaves all databases alone and puts a copy for the far end of link l in flight. */
  lemma Announce(s: System, o: nat, me: Node, l: int) returns (k: nat, s': System)
    requires Sane(s) && NextRecord(s, o, me) && 0 <= l < |me.links| && me.links[l].neighbourIp != NO_IP
    ensures s' == Apply(s, SendOwn(o, me)) && Sane(s') && |s'.routers| == |s.routers|
    ensures s'.routers[o].me == me && forall r :: 0 <= r < |s.routers| ==> s'.routers[r].graph == s.routers[r].graph
    ensures k >= |s.net| && IsPacket(s'.net, k, Packet(me.links[l].neighbourId, me.links[l].sourceIp, RouterLsa(me)))
    ensures forall j, p :: IsPacket(s.net, j, p) ==> IsPacket(s'.net, j, p)
  {
    var c := CopyPerLink(me.links, RouterLsa(me), NO_IP, l);
    k := |s.net| + c;
    s' := Apply(s, SendOwn(o, me));
    StepKeepsSane(s, SendOwn(o, me));
  }

  /** A delivery merges the record and leaves the packets before it in their places. */
  lemma Arrive(s: System, k: nat, q: int, lsa: Node) returns (s': System)
    requires Sane(s) && k < |s.net| && s.net[k].to == q + 1 && s.net[k].body == RouterLsa(lsa)
    ensures s' == Apply(s, Deliver(k)) && Sane(s') && |s'.routers| == |s.routers|
    ensures 0 <= q < |s.routers| && 1 <= lsa.id <= |s.routers| == |s.routers[q].graph| == |s'.routers[q].graph|
    ensures s'.routers[q].graph[lsa.id - 1] == MergeEntry(s.routers[q].graph[lsa.id - 1], lsa)
    ensures forall r :: 0 <= r < |s.routers| ==> s'.routers[r].me == s.routers[r].me
    ensures forall j, p :: j < k && IsPacket(s.net, j, p) ==> IsPacket(s'.net, j, p)
  {
    InFlightDeliverable(s, k);
    assert GenuinePacket(s.past, s.net[k]);
    assert GoodRouter(s, q);
    GenuineIsGood(s, lsa);
    s' := Apply(s, Deliver(k));
    StepKeepsSane(s, Deliver(k));
  }

  /** Two copies arrive in the wrong order. */
  lemma ArriveSwapped(s: System, k1: nat, k2: nat, q: int, older: Node, newer: Node) returns (s3: System, s': System)
    requires Sane(s) && k1 < k2 < |s.net| && older.id == newer.id
    requires s.net[k1].to == s.net[k2].to == q + 1
    requires s.net[k1].body == RouterLsa(older) && s.net[k2].body == RouterLsa(newer)
    ensures s3 == Apply(s, Deliver(k2)) && Sane(s3) && k1 < |s3.net| && s' == Apply(s3, Deliver(k1))
    ensures 0 <= q < |s.routers| == |s'.routers| && 1 <= older.id <= |s.routers[q].graph| == |s'.routers[q].graph|
    ensures s'.routers[q].graph[older.id - 1]
         == MergeEntry(MergeEntry(s.routers[q].graph[older.id - 1], newer), older)
    ensures forall r :: 0 <= r < |s.routers| ==> s'.routers[r].me == s.routers[r].me
  {
    s3 := Arrive(s, k2, q, newer);
    assert IsPacket(s.net, k1, s.net[k1]);
    s' := Arrive(s3, k1, q, older);
  }

  lemma SaneEntry(s: System, q: int, o: int)
    requires Sane(s) && 0 <= q < |s.routers| && 0 <= o < |s.routers|
    ensures |s.routers[q].graph| == |s.routers|
    ensures var e := s.routers[q].graph[o];
            e.id == o + 1 && (e.state == Seen ==> e.timestamp <= s.routers[o].me.timestamp)
    ensures s.routers[o].me.id == o + 1
  {
    assert GoodRouter(s, q) && GoodRouter(s, o);
  }

  ghost predicate IsLater(me: Node, me0: Node) { NextOwn(me, me0) && me0.timestamp < me.timestamp }

  lemma AnnounceTwice(s: System, o: nat, older: Node, newer: Node, l: int) returns (k1: nat, k2: nat, s1: System, s2: System)
    requires Sane(s) && NextRecord(s, o, older) && IsLater(newer, older)
    requires 0 <= l < |s.routers[o].me.links| && s.routers[o].me.links[l].neighbourIp != NO_IP
    ensures s1 == Apply(s, SendOwn(o, older)) && Sane(s1) && NextRecord(s1, o, newer)
    ensures s2 == Apply(s1, SendOwn(o, newer)) && Sane(s2) && |s2.routers| == |s.routers| && s2.routers[o].me == newer
    ensures forall r :: 0 <= r < |s.routers| ==> s2.routers[r].graph == s.routers[r].graph
    ensures k1 < k2 < |s2.net|
    ensures s2.net[k1].to == s2.net[k2].to == s.routers[o].me.links[l].neighbourId
    ensures s2.net[k1].body == RouterLsa(older) && s2.net[k2].body == RouterLsa(newer)
  {
    k1, s1 := Announce(s, o, older, l);
    k2, s2 := Announce(s1, o, newer, l);
    assert IsPacket(s2.net, k1, s1.net[k1]);
  }

  /**
   Router o announces one record after another to its neighbour q, and the second overtakes the first. In the end q has
   content other than o's present record exactly when q's entry had the content of the second all along, with a time
   stamp before the first, and the two differ.
   */
  lemma OvertakingRun(s: System, o: nat, older: Node, newer: Node, l: int) returns (steps: seq<Step>, s': System)
    requires Sane(s) && NextRecord(s, o, older) && IsLater(newer, older)
    requires 0 <= l < |s.routers[o].me.links| && s.routers[o].me.links[l].neighbourIp != NO_IP
    ensures var q := s.routers[o].me.links[l].neighbourId - 1;
            && Run(s, steps, s') && |steps| == 4 && 0 <= q < |s.routers| == |s'.routers|
            && |s.routers[q].graph| == |s'.routers[q].graph| == |s.routers| && s'.routers[o].me == newer
            && var entry := s.routers[q].graph[o];
               !ContentEq(s'.routers[q].graph[o], s'.routers[o].me) <==>
               && entry.state == Seen && ContentEq(entry, newer)
               && entry.timestamp < older.timestamp && !ContentEq(older, newer)
  {
    var q := s.routers[o].me.links[l].neighbourId - 1;
    var k1, k2, s1, s2 := AnnounceTwice(s, o, older, newer, l);
    var s3;
    s3, s' := ArriveSwapped(s2, k1, k2, q, older, newer);
    OvertakenEntry(s, q, o, older, newer);
    steps := [SendOwn(o, older), SendOwn(o, newer), Deliver(k2), Deliver(k1)];
    FourSteps(s, steps, s1, s2, s3, s');
  }

  lemma OvertakenEntry(s: System, q: int, o: nat, older: Node, newer: Node)
    requires Sane(s) && NextRecord(s, o, older) && IsLater(newer, older) && 0 <= q < |s.routers|
    ensures |s.routers[q].graph| == |s.routers| && older.id == o + 1
    ensures var entry := s.routers[q].graph[o];
            !ContentEq(MergeEntry(MergeEntry(entry, newer), older), newer) <==>
            && entry.state == Seen && ContentEq(entry, newer)
            && entry.timestamp < older.timestamp && !ContentEq(older, newer)
  {
    SaneEntry(s, q, o);
    StaleContentIff(s.routers[q].graph[o], older, newer);
  }

  lemma FourSteps(s: System, steps: seq<Step>, s1: System, s2: System, s3: System, s4: System)
    requires |steps| == 4
    requires Sane(s) && Enabled(s, steps[0]) && s1 == Apply(s, steps[0])
    requires Sane(s1) && Enabled(s1, steps[1]) && s2 == Apply(s1, steps[1])
    requires Sane(s2) && Enabled(s2, steps[2]) && s3 == Apply(s2, steps[2])
    requires Sane(s3) && Enabled(s3, steps[3]) && s4 == Apply(s3, steps[3])
    ensures Run(s, steps, s4)
  {
    StepKeepsSane(s3, steps[3]);
    assert Run(s4, [], s4);
    assert steps[3..] == [steps[3]] && steps[3..][1..] == [];
    assert Run(s3, steps[3..], s4);
    assert steps[2..][1..] == steps[3..];
    assert Run(s2, steps[2..], s4);
    assert steps[1..][1..] == steps[2..];
    assert Run(s1, steps[1..], s4);
  }
}
