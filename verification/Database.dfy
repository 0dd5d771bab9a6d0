/** The versioned link-state database of one router and the rules by which records are merged into it. */
module Database {
  import opened Network
  import opened Routes

  /** Whether `other` replaces `entry`: it is better known, or newer with different content. */
  predicate Accepts(entry: Node, other: Node) {
    && other.state != Unseen
    && (|| entry.state == Unseen
        || (entry.state == Opaque && other.state == Seen)
        || (other.state == Seen && other.timestamp > entry.timestamp && !ContentEq(entry, other)))
  }

  predicate IsNeighbour(links: seq<Link>, id: int) {
    exists l :: 0 <= l < |links| && links[l].neighbourId == id
  }

  /** Neighbours that were never heard of become opaque. */
  function Mark(g: seq<Node>, links: seq<Link>): (r: seq<Node>)
    ensures |r| == |g|
  {
    seq(|g|, i requires 0 <= i < |g| =>
      if g[i].state == Unseen && IsNeighbour(links, i + 1) then g[i].(state := Opaque) else g[i])
  }

  /** A record arrives whose id and neighbour ids index the graph. */
  predicate InRange(record: Node, n: nat) {
    1 <= record.id <= n && forall l :: 0 <= l < |record.links| ==> 1 <= record.links[l].neighbourId <= n
  }

  function MergeNode(g: seq<Node>, other: Node): (r: seq<Node>)
    requires InRange(other, |g|)
    ensures |r| == |g|
  {
    if other.state == Unseen then g
    else Mark(if Accepts(g[other.id - 1], other) then g[other.id - 1 := other] else g, other.links)
  }

  function MergeGraph(g: seq<Node>, others: seq<Node>): (r: seq<Node>)
    requires |g| == |others|
    ensures |r| == |g|
  {
    seq(|g|, i requires 0 <= i < |g| => if Accepts(g[i], others[i]) then others[i] else g[i])
  }

  /** A router's own record replaces its entry unconditionally. */
  function StoreOwn(g: seq<Node>, me: Node): (r: seq<Node>)
    requires InRange(me, |g|)
    ensures |r| == |g|
  {
    Mark(g[me.id - 1 := me], me.links)
  }

  function InitialGraph(n: nat): seq<Node> {
    seq(n, i => Node(i + 1, Unseen, [], 0))
  }

  // ---------- The operations, in place ----------

  method GraphInit(graph: array<Node>)
    modifies graph
    ensures forall i :: 0 <= i < graph.Length ==>
              graph[i] == old(graph[i]).(id := i + 1, state := Unseen, timestamp := 0)
  {
    for i := 0 to graph.Length
      invariant forall k :: 0 <= k < i ==> graph[k] == old(graph[k]).(id := k + 1, state := Unseen, timestamp := 0)
      invariant forall k :: i <= k < graph.Length ==> graph[k] == old(graph[k])
    {
      graph[i] := graph[i].(id := i + 1, state := Unseen, timestamp := 0);
    }
  }

  lemma IsNeighbourExtends(links: seq<Link>, i: nat, id: int)
    requires i < |links|
    ensures IsNeighbour(links[..i + 1], id) <==> IsNeighbour(links[..i], id) || links[i].neighbourId == id
  {
    if links[i].neighbourId == id { assert links[..i + 1][i].neighbourId == id; }
    if IsNeighbour(links[..i], id) {
      var l :| 0 <= l < i && links[..i][l].neighbourId == id;
      assert links[..i + 1][l].neighbourId == id;
    }
  }

  /** Marking a further neighbour in place amounts to marking one link more. */
  lemma MarkOneMore(g: seq<Node>, links: seq<Link>, i: nat)
    requires i < |links| && 1 <= links[i].neighbourId <= |g|
    ensures var m, k := Mark(g, links[..i]), links[i].neighbourId - 1;
            Mark(g, links[..i + 1]) == if m[k].state == Unseen then m[k := m[k].(state := Opaque)] else m
  {
    forall id | 1 <= id <= |g|
      ensures IsNeighbour(links[..i + 1], id) <==> IsNeighbour(links[..i], id) || links[i].neighbourId == id
    {
      IsNeighbourExtends(links, i, id);
    }
  }

  method MarkNeighbours(graph: array<Node>, links: seq<Link>)
    requires forall l :: 0 <= l < |links| ==> 1 <= links[l].neighbourId <= graph.Length
    modifies graph
    ensures graph[..] == Mark(old(graph[..]), links)
  {
    assert graph[..] == Mark(graph[..], links[..0]);
    for i := 0 to |links|
      invariant graph[..] == Mark(old(graph[..]), links[..i])
    {
      MarkOneMore(old(graph[..]), links, i);
      var n := links[i].neighbourId - 1;
      if graph[n].state == Unseen {
        graph[n] := graph[n].(state := Opaque);
      }
    }
    assert links[..|links|] == links;
  }

  method MergeInNode(graph: array<Node>, other: Node) returns (updated: bool)
    requires InRange(other, graph.Length)
    modifies graph
    ensures graph[..] == MergeNode(old(graph[..]), other)
    ensures updated <==> Accepts(old(graph[other.id - 1]), other)
  {
    var n := other.id - 1;
    updated := false;
    if other.state == Unseen {
      return false;
    }
    if graph[n].state == Unseen || (graph[n].state == Opaque && other.state == Seen) {
      graph[n] := other;
      updated := true;
    }
    if other.state == Seen && other.timestamp > graph[n].timestamp {
      var eq := NodesEq(graph[n], other);
      if !eq {
        graph[n] := other;
        updated := true;
      }
    }
    MarkNeighbours(graph, other.links);
  }

  method MergeInGraph(these: array<Node>, others: seq<Node>) returns (updated: bool)
    requires |others| == these.Length
    modifies these
    ensures these[..] == MergeGraph(old(these[..]), others)
    ensures updated <==> exists i :: 0 <= i < |others| && Accepts(old(these[i]), others[i])
  {
    updated := false;
    for i := 0 to these.Length
      invariant forall k :: 0 <= k < i ==> these[k] == if Accepts(old(these[k]), others[k]) then others[k] else old(these[k])
      invariant forall k :: i <= k < these.Length ==> these[k] == old(these[k])
      invariant updated <==> exists k :: 0 <= k < i && Accepts(old(these[k]), others[k])
    {
      if others[i].state == Unseen {
        continue;
      }
      if these[i].state == Unseen {
        these[i] := others[i];
        updated := true;
      }
      if these[i].state == Opaque && others[i].state == Seen {
        these[i] := others[i];
        updated := true;
      }
      if others[i].state == Seen && others[i].timestamp > these[i].timestamp {
        var eq := NodesEq(these[i], others[i]);
        if !eq {
          these[i] := others[i];
          updated := true;
        }
      }
    }
  }

  method UpdateGlobal(graph: array<Node>, me: Node)
    requires InRange(me, graph.Length)
    modifies graph
    ensures graph[..] == StoreOwn(old(graph[..]), me)
  {
    graph[me.id - 1] := me;
    MarkNeighbours(graph, me.links);
  }

  // ---------- How entries move ----------

  /** Entries only ever become better known or, once seen, newer. */
  predicate NotBelow(a: Node, b: Node) {
    || (b.state == Unseen)
    || (b.state == Opaque && a.state != Unseen)
    || (b.state == Seen && a.state == Seen && a.timestamp >= b.timestamp)
  }

  /** Merging the same record, or the same whole graph, again is rejected and changes nothing. */
  lemma MergeIsIdempotent(g: seq<Node>, other: Node, others: seq<Node>)
    requires InRange(other, |g|) && |others| == |g|
    requires GoodIds(g)
    ensures !Accepts(MergeNode(g, other)[other.id - 1], other)
    ensures MergeNode(MergeNode(g, other), other) == MergeNode(g, other)
    ensures forall i :: 0 <= i < |g| ==> !Accepts(MergeGraph(g, others)[i], others[i])
    ensures MergeGraph(MergeGraph(g, others), others) == MergeGraph(g, others)
  {
    var m := MergeNode(g, other);
    assert !Accepts(m[other.id - 1], other);
    assert MergeNode(m, other) == m;
  }

  /**
   What becomes of an entry. Where both it and the record are seen, a newer record is taken exactly if it has another
   number of links, or a link with another neighbour, status or metric; time stamps and addresses are no reason to take
   it, and a refresh leaves the entry with its old time stamp.
   */
  lemma MergedEntry(entry: Node, other: Node)
    requires entry.id == other.id
    ensures other.state == Unseen || (other.state == Opaque && entry.state != Unseen) ==>
              MergeEntry(entry, other) == entry && !Accepts(entry, other)
    ensures other.state != Unseen && (entry.state == Unseen || (entry.state == Opaque && other.state == Seen)) ==>
              MergeEntry(entry, other) == other && Accepts(entry, other)
    ensures other.state == Seen && entry.state == Seen ==>
              var news := && other.timestamp > entry.timestamp
                          && (|| |entry.links| != |other.links|
                              || exists i :: 0 <= i < |entry.links| &&
                                   (|| entry.links[i].neighbourId != other.links[i].neighbourId
                                    || entry.links[i].status != other.links[i].status
                                    || entry.links[i].metric != other.links[i].metric));
              MergeEntry(entry, other) == (if news then other else entry) && (Accepts(entry, other) <==> news)
  {
    if other.state == Seen && entry.state == Seen && |entry.links| == |other.links| {
      assert ContentEq(entry, other) <==> forall i :: 0 <= i < |entry.links| ==> SameLink(entry.links[i], other.links[i]);
    }
  }

  /** That is how a record is merged into the entry of its origin, and a whole graph into every entry. */
  lemma MergesAreOfEntries(g: seq<Node>, other: Node, others: seq<Node>, i: int)
    requires InRange(other, |g|) && |others| == |g| && 0 <= i < |g|
    ensures MergeNode(g, other)[other.id - 1] == MergeEntry(g[other.id - 1], other)
    ensures MergeGraph(g, others)[i] == MergeEntry(g[i], others[i])
  {
  }

  /** A refresh, whatever its time stamp and addresses, is not taken, so that it is neither stored nor passed on. */
  lemma RefreshIsNoNews(entry: Node, other: Node)
    requires entry.state == other.state == Seen && entry.id == other.id && |entry.links| == |other.links|
    requires forall i :: 0 <= i < |entry.links| ==>
               && entry.links[i].neighbourId == other.links[i].neighbourId
               && entry.links[i].status == other.links[i].status && entry.links[i].metric == other.links[i].metric
    ensures !Accepts(entry, other) && MergeEntry(entry, other) == entry
  {
    assert ContentEq(entry, other);
  }

  /**
   What merging or storing a record does to the entries of others: those never heard of become opaque exactly if a link
   of the record names them, even if the record is no news; all else stays.
   */
  lemma OtherEntries(g: seq<Node>, record: Node, j: int)
    requires InRange(record, |g|) && 0 <= j < |g| && j != record.id - 1
    ensures var named := exists l :: 0 <= l < |record.links| && record.links[l].neighbourId == j + 1;
            var marked := if g[j].state == Unseen && named then g[j].(state := Opaque) else g[j];
            && StoreOwn(g, record)[j] == marked
            && MergeNode(g, record)[j] == if record.state == Unseen then g[j] else marked
  {
    assert IsNeighbour(record.links, j + 1) <==>
           exists l :: 0 <= l < |record.links| && record.links[l].neighbourId == j + 1;
  }

  /** A router's own record is stored whatever was there before. */
  lemma OwnEntryIsStored(g: seq<Node>, me: Node)
    requires InRange(me, |g|) && me.state == Seen
    ensures StoreOwn(g, me)[me.id - 1] == me
  {
  }

  predicate GoodIds(g: seq<Node>) {
    forall i :: 0 <= i < |g| ==> g[i].id == i + 1
  }

  // ---------- Order of merges ----------

  /**
   Two records of one origin may arrive in either order. The database ends up the same exactly when the older one is no
   news, or the newer one differs from both the present entry and the older one.
   */
  lemma MergeOrderIrrelevantIff(g: seq<Node>, older: Node, newer: Node)
    requires GoodIds(g) && InRange(older, |g|) && InRange(newer, |g|)
    requires older.state == newer.state == Seen && older.id == newer.id && older.timestamp < newer.timestamp
    ensures var entry := g[older.id - 1];
            MergeNode(MergeNode(g, older), newer) == MergeNode(MergeNode(g, newer), older) <==>
            || (entry.state == Seen && entry.timestamp >= older.timestamp)
            || ContentEq(entry, older)
            || (!ContentEq(entry, newer) && !ContentEq(older, newer))
  {
    var n := older.id - 1;
    var p, q := MergeNode(MergeNode(g, older), newer), MergeNode(MergeNode(g, newer), older);
    assert p[n] == MergeEntry(MergeEntry(g[n], older), newer);
    assert q[n] == MergeEntry(MergeEntry(g[n], newer), older);
    assert forall i :: 0 <= i < |g| && i != n ==> p[i] == q[i];
    assert p == q <==> p[n] == q[n];
  }

  /** What becomes of an entry when a record of its origin is merged. */
  function MergeEntry(entry: Node, other: Node): Node {
    if Accepts(entry, other) then other else entry
  }

  /**
   Delivered in order, two records leave the content of the newer one. If the newer one overtakes the older, stale content
   remains exactly when the newer one only refreshes the entry, so that the old time stamp stays, and the older one is
   newer than that and differs.
   */
  lemma StaleContentIff(entry: Node, older: Node, newer: Node)
    requires older.state == newer.state == Seen && older.id == newer.id && older.timestamp < newer.timestamp
    // nothing newer than `newer` has been stored
    requires entry.state == Seen && !ContentEq(entry, newer) ==> entry.timestamp < newer.timestamp
    ensures ContentEq(MergeEntry(MergeEntry(entry, older), newer), newer)
    ensures !ContentEq(MergeEntry(MergeEntry(entry, newer), older), newer) <==>
            && entry.state == Seen && ContentEq(entry, newer)
            && entry.timestamp < older.timestamp && !ContentEq(older, newer)
  {
  }

  /** Such an order exists: up, down, up again, where the last record overtakes the second. */
  lemma OvertakingLeavesStaleContent() returns (entry: Node, older: Node, newer: Node)
    ensures entry.state == older.state == newer.state == Seen && entry.id == older.id == newer.id
    ensures entry.timestamp < older.timestamp < newer.timestamp
    ensures |entry.links| == |older.links| == |newer.links| == 1
    ensures entry.links[0].status == newer.links[0].status == Up
    ensures MergeEntry(MergeEntry(entry, newer), older).links[0].status == Down
  {
    var up := Link(2, NO_IP, NO_IP, Up, 1.0);
    entry, older, newer := Node(1, Seen, [up], 1), Node(1, Seen, [up.(status := Down)], 2), Node(1, Seen, [up], 3);
    assert !SameLink(older.links[0], newer.links[0]);
    StaleContentIff(entry, older, newer);
  }

  /** What becomes of an entry when several records of its origin are merged. */
  ghost function MergeEntries(entry: Node, others: seq<Node>): Node {
    if others == [] then entry
    else MergeEntry(MergeEntries(entry, others[..|others| - 1]), others[|others| - 1])
  }

  /** A record that a router still takes for news, although it has the content of `newest` already. */
  ghost predicate TakenForNews(entry: Node, other: Node, newest: Node) {
    other.timestamp > entry.timestamp && !ContentEq(other, newest)
  }

  lemma {:induction false} NothingTaken(entry: Node, newest: Node, late: seq<Node>)
    requires newest.state == Seen && ContentEq(entry, newest)
    requires forall k :: 0 <= k < |late| ==> late[k].state == Seen && !TakenForNews(entry, late[k], newest)
    ensures MergeEntries(entry, late) == entry
  {
    if late != [] {
      NothingTaken(entry, newest, late[..|late| - 1]);
      assert !TakenForNews(entry, late[|late| - 1], newest);
    }
  }

  /**
   A router has the newest content, and other records of the origin arrive late, any number in any order: it loses that
   content at some point exactly when one of them differs and is newer than the stamp that the entry has kept.
   */
  lemma {:induction false} NewestContentIsLostIff(entry: Node, newest: Node, late: seq<Node>)
    requires newest.state == Seen && ContentEq(entry, newest)
    requires forall k :: 0 <= k < |late| ==> late[k].state == Seen
    ensures (exists n :: 0 <= n <= |late| && !ContentEq(MergeEntries(entry, late[..n]), newest)) <==>
            exists k :: 0 <= k < |late| && TakenForNews(entry, late[k], newest)
  {
    if k0 :| 0 <= k0 < |late| && TakenForNews(entry, late[k0], newest) {
      var k := 0;
      while !TakenForNews(entry, late[k], newest)
        invariant 0 <= k <= k0 && forall j :: 0 <= j < k ==> !TakenForNews(entry, late[j], newest)
        decreases k0 - k
      {
        k := k + 1;
      }
      NothingTaken(entry, newest, late[..k]);
      assert late[..k + 1][..k] == late[..k] && late[..k + 1][k] == late[k];
      assert MergeEntries(entry, late[..k + 1]) == late[k];
    } else {
      forall n | 0 <= n <= |late| ensures ContentEq(MergeEntries(entry, late[..n]), newest) {
        NothingTaken(entry, newest, late[..n]);
      }
    }
  }

  // ---------- In-order delivery ----------

  ghost function MergeAll(g: seq<Node>, lsas: seq<Node>): (r: seq<Node>)
    requires forall k :: 0 <= k < |lsas| ==> InRange(lsas[k], |g|)
    ensures |r| == |g|
  {
    if lsas == [] then g
    else
      assert InRange(lsas[|lsas| - 1], |g|);
      MergeNode(MergeAll(g, lsas[..|lsas| - 1]), lsas[|lsas| - 1])
  }

  /** The last record of origin `id` among `lsas`, or the default. */
  ghost function LastOf(lsas: seq<Node>, id: int, default: Node): Node {
    if lsas == [] then default
    else if lsas[|lsas| - 1].id == id then lsas[|lsas| - 1]
    else LastOf(lsas[..|lsas| - 1], id, default)
  }

  /** Only seen records, and those of one origin in strictly increasing time. */
  ghost predicate InOrderPerOrigin(lsas: seq<Node>) {
    && (forall k :: 0 <= k < |lsas| ==> lsas[k].state == Seen)
    && forall j, k :: 0 <= j < k < |lsas| && lsas[j].id == lsas[k].id ==> lsas[j].timestamp < lsas[k].timestamp
  }

  /** The entry of an origin is not newer than, and has the content of, the record delivered last; or it is not seen. */
  ghost predicate UpToDate(entry: Node, last: Node) {
    if last.state == Seen then ContentEq(entry, last) && entry.timestamp <= last.timestamp
    else entry.state != Seen
  }

  lemma {:induction false} LastIsDelivered(lsas: seq<Node>, id: int, default: Node) returns (k: int)
    ensures LastOf(lsas, id, default) == default || (0 <= k < |lsas| && lsas[k] == LastOf(lsas, id, default) && lsas[k].id == id)
  {
    if lsas == [] || lsas[|lsas| - 1].id == id {
      k := |lsas| - 1;
    } else {
      k := LastIsDelivered(lsas[..|lsas| - 1], id, default);
    }
  }

  lemma UpToDateStep(g: seq<Node>, lsa: Node, id: int, last: Node)
    requires InRange(lsa, |g|) && lsa.state == Seen && 1 <= id <= |g|
    requires UpToDate(g[id - 1], last)
    requires lsa.id == id && last.state == Seen ==> last.timestamp < lsa.timestamp
    ensures UpToDate(MergeNode(g, lsa)[id - 1], if lsa.id == id then lsa else last)
  {
    assert lsa.id == id ==> MergeNode(g, lsa)[id - 1] == MergeEntry(g[id - 1], lsa);
  }

  /**
   Delivering seen records in order per origin, from an initialised graph and interleaved at will, leaves for each origin
   the content of its last record, although refreshes with equal content are dropped.
   */
  lemma {:induction false} LastWriterWins(n: nat, lsas: seq<Node>, id: int)
    requires forall k :: 0 <= k < |lsas| ==> InRange(lsas[k], n)
    requires InOrderPerOrigin(lsas) && 1 <= id <= n
    ensures UpToDate(MergeAll(InitialGraph(n), lsas)[id - 1], LastOf(lsas, id, InitialGraph(n)[id - 1]))
  {
    if lsas != [] {
      var init, lsa := lsas[..|lsas| - 1], lsas[|lsas| - 1];
      assert InRange(lsa, n);
      LastWriterWins(n, init, id);
      var k := LastIsDelivered(init, id, InitialGraph(n)[id - 1]);
      UpToDateStep(MergeAll(InitialGraph(n), init), lsa, id, LastOf(init, id, InitialGraph(n)[id - 1]));
    }
  }

  // ---------- Closure ----------

  /** A graph that router-local code maintains: indexed by id, well formed, and closed under neighbours. */
  ghost predicate GoodDatabase(g: seq<Node>) {
    GoodGraph(g) && Closed(g)
  }

  ghost predicate GoodRecord(record: Node, n: nat) {
    record.state == Seen && 1 <= record.id <= n && GoodNode(record, n)
  }

  lemma MarkKnows(g: seq<Node>, links: seq<Link>, id: int)
    ensures Known(g, id) || IsNeighbour(links, id) ==> Known(Mark(g, links), id)
  {
  }

  lemma MarkedIsClosed(g: seq<Node>, record: Node)
    requires GoodDatabase(g) && GoodRecord(record, |g|)
    ensures GoodDatabase(Mark(g, record.links)) && GoodDatabase(Mark(g[record.id - 1 := record], record.links))
  {
    forall m: seq<Node> | m == g || m == g[record.id - 1 := record] ensures Closed(Mark(m, record.links)) {
      forall u, l | 0 <= u < |m| && Mark(m, record.links)[u].state == Seen && 0 <= l < |m[u].links|
        ensures Known(Mark(m, record.links), m[u].links[l].neighbourId)
      {
        var id := m[u].links[l].neighbourId;
        if m[u] == record {
          assert IsNeighbour(record.links, id);
        } else {
          assert Known(g, id);
        }
        MarkKnows(m, record.links, id);
      }
    }
  }

  lemma MergeKeepsDatabase(g: seq<Node>, others: seq<Node>)
    requires GoodDatabase(g) && GoodDatabase(others) && |others| == |g|
    ensures GoodDatabase(MergeGraph(g, others))
  {
    var m := MergeGraph(g, others);
    forall u, l | 0 <= u < |m| && m[u].state == Seen && 0 <= l < |m[u].links|
      ensures Known(m, m[u].links[l].neighbourId)
    {
      var id := m[u].links[l].neighbourId;
      assert Known(if m[u] == others[u] then others else g, id);
    }
  }

  /** Every writer of a database keeps it well formed and closed. */
  lemma WritersKeepDatabase(g: seq<Node>, record: Node, others: seq<Node>)
    requires GoodDatabase(g) && GoodRecord(record, |g|) && GoodDatabase(others) && |others| == |g|
    ensures GoodDatabase(MergeNode(g, record)) && GoodDatabase(StoreOwn(g, record)) && GoodDatabase(MergeGraph(g, others))
  {
    MarkedIsClosed(g, record);
    MergeKeepsDatabase(g, others);
  }

  lemma InitialIsGood(n: nat)
    ensures GoodDatabase(InitialGraph(n))
  {
  }
}
